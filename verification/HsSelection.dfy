/** Picking a code for a measured value, and agreeing two measurements
    (`silk_hs_attributes.py`, sections 2b, 4 and 8). */
module HsSelection {
  import opened HsBands
  import opened StableSort
  import opened Wrappers

  /** A known unit: its family, its factor to the family's base unit, and the
      basis of its percentage when the unit declares one. */
  datatype Unit = Unit(family: string, factor: real, basis: Option<Basis>)

  datatype Reading = Reading(value: real, unit: Option<Unit>)

  predicate CrossBasis(unit: Unit, bands: seq<Band>) {
    match unit.basis
    case None => false
    case Some(MassByVolume) => true
    case Some(basis) =>
      && (exists b | b in bands :: b.basis.Some?)
      && forall b | b in bands :: b.basis != Some(basis)
  }

  predicate Near(edge: Option<real>, v: real, margin: real) {
    edge.Some? && v - edge.value <= margin && edge.value - v <= margin
  }

  predicate NearAnyEdge(bands: seq<Band>, v: real, margin: real) {
    exists b | b in bands :: Near(b.lo, v, margin) || Near(b.hi, v, margin)
  }

  predicate Convertible(disc: Disc, r: Reading) {
    r.unit.Some? && r.unit.value.family == disc.family
  }

  function Base(r: Reading): real
    requires r.unit.Some?
  {
    r.value * r.unit.value.factor
  }

  /** The edge guard: an approximate conversion this close to an edge decides nothing. */
  predicate Guarded(disc: Disc, r: Reading, margin: real)
    requires r.unit.Some?
  {
    CrossBasis(r.unit.value, disc.bands) && NearAnyEdge(disc.bands, Base(r), margin)
  }

  /** The band a unit's value chooses, the edge guard included. */
  function Chosen(disc: Disc, unit: Unit, v: real, margin: real): Option<Band> {
    if CrossBasis(unit, disc.bands) && NearAnyEdge(disc.bands, v, margin) then None
    else
      var hits := Hits(disc.bands, v);
      if |hits| == 1 then Some(hits[0]) else None
  }

  function Select(disc: Disc, r: Reading, margin: real): Option<string> {
    if !Convertible(disc, r) then None
    else
      var band := Chosen(disc, r.unit.value, Base(r), margin);
      if band.Some? then Some(band.value.hs6) else None
  }

  ghost predicate Accepted(disc: Disc) {
    disc.bands != [] && Chained(disc.bands)
  }

  lemma {:induction false} DiscriminateAccepts(bands: seq<Band>)
    requires Discriminate(bands).Some?
    ensures Accepted(Discriminate(bands).value)
  {}

  predicate Inside(b: Band, v: real) {
    (b.lo.Some? ==> b.lo.value < v) && (b.hi.Some? ==> v < b.hi.value)
  }

  predicate Within(w: real, v: real, margin: real) {
    w - v <= margin && v - w <= margin
  }

  /** Every value the margin allows for lies strictly inside the band. */
  ghost predicate RobustlyInside(b: Band, v: real, margin: real) {
    forall w: real | Within(w, v, margin) :: Inside(b, w)
  }

  lemma {:induction false} SelectedBand(disc: Disc, r: Reading, margin: real) returns (i: nat)
    requires Accepted(disc) && Select(disc, r, margin).Some?
    ensures i < |disc.bands| && Contains(disc.bands[i], Base(r))
    ensures Select(disc, r, margin) == Some(disc.bands[i].hs6)
    ensures forall j | 0 <= j < |disc.bands| && j != i :: !Contains(disc.bands[j], Base(r))
  {
    i := SomeHit(disc.bands, Base(r));
    Partition(disc.bands, Base(r));
    forall j | 0 <= j < |disc.bands| && j != i ensures !Contains(disc.bands[j], Base(r)) {
      ChainedDisjoint(disc.bands, if i < j then i else j, if i < j then j else i, Base(r));
    }
  }

  lemma {:induction false} FarFromEdges(b: Band, v: real, margin: real)
    requires Contains(b, v) && !Near(b.lo, v, margin) && !Near(b.hi, v, margin)
    ensures RobustlyInside(b, v, margin)
  {}

  /** Edge guard, soundness: a reading on a foreign basis that still gets a code
      would get the same code for every true value within the margin. */
  lemma {:induction false} EdgeGuardSound(disc: Disc, r: Reading, margin: real)
    requires Accepted(disc) && Convertible(disc, r) && CrossBasis(r.unit.value, disc.bands)
    requires Select(disc, r, margin).Some?
    ensures forall w: real | Within(w, Base(r), margin) ::
      |Hits(disc.bands, w)| == 1 && Some(Hits(disc.bands, w)[0].hs6) == Select(disc, r, margin)
  {
    var i := SelectedBand(disc, r, margin);
    assert disc.bands[i] in disc.bands;
    FarFromEdges(disc.bands[i], Base(r), margin);
    forall w: real | Within(w, Base(r), margin)
      ensures |Hits(disc.bands, w)| == 1 && Some(Hits(disc.bands, w)[0].hs6) == Select(disc, r, margin)
    {
      Partition(disc.bands, w);
    }
  }

  /** No band of a chain has an end strictly inside another. */
  lemma {:induction false} EdgesOutside(s: seq<Band>, i: nat, k: nat, edge: real)
    requires Chained(s) && i < |s| && k < |s|
    requires s[k].lo == Some(edge) || s[k].hi == Some(edge)
    ensures !Inside(s[i], edge)
  {
    if i < k { ChainedGap(s, i, k); }
    if k < i { ChainedGap(s, k, i); }
  }

  /** Edge guard, exactness: on a foreign basis a code comes back if and only if
      one band holds the whole margin around the reading strictly inside it. */
  lemma {:induction false} EdgeGuardExact(disc: Disc, r: Reading, margin: real)
    requires Accepted(disc) && Convertible(disc, r) && CrossBasis(r.unit.value, disc.bands)
    requires margin >= 0.0
    ensures Select(disc, r, margin).Some? <==>
            exists i | 0 <= i < |disc.bands| :: RobustlyInside(disc.bands[i], Base(r), margin)
  {
    var s, v := disc.bands, Base(r);
    if Select(disc, r, margin).Some? {
      var i := SelectedBand(disc, r, margin);
      assert s[i] in s;
      FarFromEdges(s[i], v, margin);
    }
    if i :| 0 <= i < |s| && RobustlyInside(s[i], v, margin) {
      assert Within(v, v, margin);
      Partition(s, v);
      if NearAnyEdge(s, v, margin) {
        var b :| b in s && (Near(b.lo, v, margin) || Near(b.hi, v, margin));
        var k :| 0 <= k < |s| && s[k] == b;
        var edge := if Near(b.lo, v, margin) then b.lo.value else b.hi.value;
        EdgesOutside(s, i, k, edge);
        assert Within(edge, v, margin);
        assert false;
      }
    }
  }

  /** On the bands' own basis a code comes back for exactly the values of the
      hull: the first lower end to the last upper end. */
  lemma {:induction false} SameBasisExact(disc: Disc, r: Reading, margin: real)
    requires Accepted(disc) && Convertible(disc, r) && !CrossBasis(r.unit.value, disc.bands)
    ensures Select(disc, r, margin).Some? <==>
            LowerOk(disc.bands[0], Base(r)) && UpperOk(disc.bands[|disc.bands| - 1], Base(r))
  {
    Partition(disc.bands, Base(r));
  }

  /** A percentage on the bands' own terms: bare, or, mass per volume apart, on a basis
      that some band declares or that no band contradicts by declaring another. */
  ghost predicate OwnTerms(basis: Option<Basis>, bands: seq<Band>) {
    basis == None
    || (basis != Some(MassByVolume)
        && ((exists b | b in bands :: b.basis == basis) || (forall b | b in bands :: b.basis == None)))
  }

  lemma {:induction false} CrossBasisExactly(unit: Unit, bands: seq<Band>, ordered: seq<Band>)
    requires forall b :: b in bands <==> b in ordered
    ensures CrossBasis(unit, ordered) <==> !OwnTerms(unit.basis, bands)
  {}

  /** The code selected from candidates, if they are accepted. */
  function SelectFrom(bands: seq<Band>, r: Reading, margin: real): Option<string> {
    var disc := Discriminate(bands);
    if disc.Some? then Select(disc.value, r, margin) else None
  }

  /** The candidates are accepted and measured in the reading's unit. */
  ghost predicate Measured(bands: seq<Band>, r: Reading) {
    Discriminate(bands).Some? && r.unit.Some? && forall b | b in bands :: b.family == r.unit.value.family
  }

  lemma {:induction false} MeasuredIs(bands: seq<Band>, r: Reading)
    requires Measured(bands, r)
    ensures Accepted(Discriminate(bands).value) && Convertible(Discriminate(bands).value, r)
    ensures CrossBasis(r.unit.value, Discriminate(bands).value.bands) <==> !OwnTerms(r.unit.value.basis, bands)
  {
    DiscriminateAccepts(bands);
    AcceptedIs(bands);
    var disc := Discriminate(bands).value;
    assert disc.bands[0] in bands;
    CrossBasisExactly(r.unit.value, bands, disc.bands);
  }

  lemma {:induction false} CandidatesSelect(bands: seq<Band>, r: Reading, margin: real)
    requires Measured(bands, r) && OwnTerms(r.unit.value.basis, bands)
    ensures SelectFrom(bands, r, margin).Some? <==> exists b | b in bands :: Contains(b, Base(r))
    ensures forall b | b in bands && Contains(b, Base(r)) :: SelectFrom(bands, r, margin) == Some(b.hs6)
  {
    var disc := Discriminate(bands).value;
    MeasuredIs(bands, r);
    AcceptedIs(bands);
    if Select(disc, r, margin).Some? {
      var i := SelectedBand(disc, r, margin);
      assert disc.bands[i] in disc.bands;
    }
    forall b | b in bands && Contains(b, Base(r)) ensures Select(disc, r, margin) == Some(b.hs6) {
      var i :| 0 <= i < |disc.bands| && disc.bands[i] == b;
      Partition(disc.bands, Base(r));
    }
  }

  /** From candidates in any order, measured in the reading's unit, in own terms: a code
      comes back if and only if some candidate's band holds the value, and it is the
      code of every candidate whose band does. */
  lemma {:induction false} CandidatesSelectExactly(bands: seq<Band>, r: Reading, v: real, margin: real)
    requires Measured(bands, r) && OwnTerms(r.unit.value.basis, bands) && v == r.value * r.unit.value.factor
    ensures SelectFrom(bands, r, margin).Some? <==> exists b | b in bands :: Contains(b, v)
    ensures forall b | b in bands && Contains(b, v) :: SelectFrom(bands, r, margin) == Some(b.hs6)
  {
    assert Base(r) == v;
    CandidatesSelect(bands, r, margin);
  }

  lemma {:induction false} RobustBandSelected(disc: Disc, r: Reading, margin: real, i: nat)
    requires Accepted(disc) && Convertible(disc, r) && CrossBasis(r.unit.value, disc.bands) && margin >= 0.0
    requires i < |disc.bands| && RobustlyInside(disc.bands[i], Base(r), margin)
    ensures Select(disc, r, margin) == Some(disc.bands[i].hs6)
  {
    EdgeGuardExact(disc, r, margin);
    assert Within(Base(r), Base(r), margin);
    var j := SelectedBand(disc, r, margin);
  }

  lemma {:induction false} SelectedRobustly(disc: Disc, r: Reading, margin: real) returns (i: nat)
    requires Accepted(disc) && Convertible(disc, r) && CrossBasis(r.unit.value, disc.bands) && margin >= 0.0
    requires Select(disc, r, margin).Some?
    ensures i < |disc.bands| && RobustlyInside(disc.bands[i], Base(r), margin)
  {
    EdgeGuardExact(disc, r, margin);
    i :| 0 <= i < |disc.bands| && RobustlyInside(disc.bands[i], Base(r), margin);
  }

  lemma {:induction false} CandidatesGuarded(bands: seq<Band>, r: Reading, margin: real)
    requires Measured(bands, r) && !OwnTerms(r.unit.value.basis, bands) && margin >= 0.0
    ensures SelectFrom(bands, r, margin).Some? <==> exists b | b in bands :: RobustlyInside(b, Base(r), margin)
    ensures forall b | b in bands && RobustlyInside(b, Base(r), margin) ::
              SelectFrom(bands, r, margin) == Some(b.hs6)
  {
    var disc := Discriminate(bands).value;
    MeasuredIs(bands, r);
    AcceptedIs(bands);
    if SelectFrom(bands, r, margin).Some? {
      var i := SelectedRobustly(disc, r, margin);
      assert disc.bands[i] in disc.bands;
    }
    forall b | b in bands && RobustlyInside(b, Base(r), margin) ensures SelectFrom(bands, r, margin) == Some(b.hs6) {
      var i :| 0 <= i < |disc.bands| && disc.bands[i] == b;
      RobustBandSelected(disc, r, margin, i);
    }
  }

  /** In foreign terms a code comes back if and only if some candidate's band holds the
      whole margin around the value, and it is the code of that candidate. */
  lemma {:induction false} CandidatesGuardedExactly(bands: seq<Band>, r: Reading, v: real, margin: real)
    requires Measured(bands, r) && !OwnTerms(r.unit.value.basis, bands) && v == r.value * r.unit.value.factor
    requires margin >= 0.0
    ensures SelectFrom(bands, r, margin).Some? <==> exists b | b in bands :: RobustlyInside(b, v, margin)
    ensures forall b | b in bands && RobustlyInside(b, v, margin) :: SelectFrom(bands, r, margin) == Some(b.hs6)
  {
    assert Base(r) == v;
    CandidatesGuarded(bands, r, margin);
  }

  /** Candidates that are not measured in the reading's unit select nothing. */
  lemma {:induction false} UnmeasuredSelectsNothing(bands: seq<Band>, r: Reading, margin: real)
    requires !Measured(bands, r)
    ensures SelectFrom(bands, r, margin) == None
  {
    if Discriminate(bands).Some? { AcceptedIs(bands); }
  }

  // ------------------------------------------------ two sources, one code

  datatype Source = Image | Web
  datatype Report = Resolved(hs6: string, source: Source) | Unresolved(conflict: bool)

  function Tolerance(agreeTol: real): real {
    if agreeTol > 0.000000001 then agreeTol else 0.000000001
  }

  predicate Agree(disc: Disc, a: Reading, b: Reading, agreeTol: real) {
    && Convertible(disc, a) && Convertible(disc, b)
    && Within(Base(a), Base(b), Tolerance(agreeTol))
  }

  /** Both sources are consulted. Two readings that differ decide nothing;
      otherwise the photographed label speaks before the web. */
  function Resolve(disc: Disc, image: Option<Reading>, web: Option<Reading>, agreeTol: real, margin: real): Report {
    if image.Some? && web.Some? && !Agree(disc, image.value, web.value, agreeTol) then Unresolved(true)
    else
      match (image, web)
      case (Some(r), _) =>
        var code := Select(disc, r, margin);
        if code.Some? then Resolved(code.value, Image) else Unresolved(false)
      case (None, Some(r)) =>
        var code := Select(disc, r, margin);
        if code.Some? then Resolved(code.value, Web) else Unresolved(false)
      case (None, None) => Unresolved(false)
  }

  /** Both readings convert to the bands' family, and the converted values are no further
      apart than the tolerance, or than a billionth where that is less. */
  ghost predicate Consistent(disc: Disc, a: Reading, b: Reading, agreeTol: real) {
    && a.unit.Some? && a.unit.value.family == disc.family
    && b.unit.Some? && b.unit.value.family == disc.family
    && var apart := a.value * a.unit.value.factor - b.value * b.unit.value.factor;
       -agreeTol <= apart <= agreeTol || -0.000000001 <= apart <= 0.000000001
  }

  lemma {:induction false} AgreeExactly(disc: Disc, a: Reading, b: Reading, agreeTol: real)
    ensures Agree(disc, a, b, agreeTol) <==> Consistent(disc, a, b, agreeTol)
  {
    if a.unit.Some? && b.unit.Some? {
      var x, y := Base(a), Base(b);
      assert Within(x, y, Tolerance(agreeTol))
             <==> -agreeTol <= x - y <= agreeTol || -0.000000001 <= x - y <= 0.000000001;
    }
  }

  /** A resolved code belongs to the one band that holds the measured value, and
      no second reading disagreed with that measurement. */
  lemma {:induction false} ResolvedIsMeasured(disc: Disc, image: Option<Reading>, web: Option<Reading>,
                                              agreeTol: real, margin: real)
    requires Accepted(disc) && Resolve(disc, image, web, agreeTol, margin).Resolved?
    ensures var r := if image.Some? then image else web;
            && r.Some? && Convertible(disc, r.value)
            && |Hits(disc.bands, Base(r.value))| == 1
            && Hits(disc.bands, Base(r.value))[0].hs6 == Resolve(disc, image, web, agreeTol, margin).hs6
            && Resolve(disc, image, web, agreeTol, margin).source == (if image.Some? then Image else Web)
            && (image.Some? && web.Some? ==> Consistent(disc, image.value, web.value, agreeTol))
  {
    if image.Some? && web.Some? { AgreeExactly(disc, image.value, web.value, agreeTol); }
  }

  /** A product without a code is reported as a conflict exactly when both sources were
      read and are not consistent; and then it has none. */
  lemma {:induction false} ConflictsExactly(disc: Disc, image: Option<Reading>, web: Option<Reading>,
                                            agreeTol: real, margin: real)
    ensures Resolve(disc, image, web, agreeTol, margin) == Unresolved(true)
            <==> image.Some? && web.Some? && !Consistent(disc, image.value, web.value, agreeTol)
    ensures image == None && web == None ==> Resolve(disc, image, web, agreeTol, margin) == Unresolved(false)
  {
    if image.Some? && web.Some? { AgreeExactly(disc, image.value, web.value, agreeTol); }
  }

  /** Measured on the bands' own basis, a product gets a code exactly when its
      readings agree and the leading one lies within the hull of the bands. */
  lemma {:induction false} ResolvesExactly(disc: Disc, image: Option<Reading>, web: Option<Reading>,
                                           agreeTol: real, margin: real)
    requires Accepted(disc) && (image.Some? || web.Some?)
    requires var r := if image.Some? then image.value else web.value;
             Convertible(disc, r) && !CrossBasis(r.unit.value, disc.bands)
    ensures var r := if image.Some? then image.value else web.value;
            Resolve(disc, image, web, agreeTol, margin).Resolved?
            <==> (image.Some? && web.Some? ==> Consistent(disc, image.value, web.value, agreeTol))
                 && LowerOk(disc.bands[0], Base(r)) && UpperOk(disc.bands[|disc.bands| - 1], Base(r))
  {
    if image.Some? && web.Some? { AgreeExactly(disc, image.value, web.value, agreeTol); }
    SameBasisExact(disc, if image.Some? then image.value else web.value, margin);
  }

  /** The two sources would have given the same code when the tolerance between
      them cannot straddle an edge and neither trips the edge guard. */
  lemma {:induction false} SourcesInterchangeable(disc: Disc, image: Reading, web: Reading,
                                                  agreeTol: real, margin: real)
    requires Accepted(disc) && Agree(disc, image, web, agreeTol)
    requires !NearAnyEdge(disc.bands, Base(image), Tolerance(agreeTol))
    requires Guarded(disc, image, margin) == Guarded(disc, web, margin)
    ensures Select(disc, image, margin) == Select(disc, web, margin)
  {
    var s := disc.bands;
    Partition(s, Base(image));
    Partition(s, Base(web));
    if Hits(s, Base(image)) != [] {
      var i := SomeHit(s, Base(image));
      assert s[i] in s;
      FarFromEdges(s[i], Base(image), Tolerance(agreeTol));
      assert Inside(s[i], Base(web));
    } else if Hits(s, Base(web)) != [] {
      var i := SomeHit(s, Base(web));
      assert s[i] in s;
      assert Contains(s[i], Base(image));
      OneHit(s, i, Base(image));
    }
  }

  // ------------------------- when every agreeing reading chooses the same band

  /** `b` holds the value, and on a foreign basis the margin around it too. */
  predicate Takes(disc: Disc, unit: Unit, b: Band, v: real, margin: real) {
    if CrossBasis(unit, disc.bands) then Inside(b, v - margin) && Inside(b, v + margin) else Contains(b, v)
  }

  lemma {:induction false} NotNearWhenInside(disc: Disc, i: nat, v: real, margin: real)
    requires Accepted(disc) && i < |disc.bands| && margin >= 0.0
    requires Inside(disc.bands[i], v - margin) && Inside(disc.bands[i], v + margin)
    ensures !NearAnyEdge(disc.bands, v, margin) && Contains(disc.bands[i], v)
  {
    var s := disc.bands;
    forall b | b in s ensures !Near(b.lo, v, margin) && !Near(b.hi, v, margin) {
      var k :| 0 <= k < |s| && s[k] == b;
      if b.lo.Some? { EdgesOutside(s, i, k, b.lo.value); }
      if b.hi.Some? { EdgesOutside(s, i, k, b.hi.value); }
    }
  }

  lemma {:induction false} ChosenExactly(disc: Disc, unit: Unit, i: nat, v: real, margin: real)
    requires Accepted(disc) && i < |disc.bands| && margin >= 0.0
    ensures Takes(disc, unit, disc.bands[i], v, margin) ==> Chosen(disc, unit, v, margin) == Some(disc.bands[i])
    ensures Chosen(disc, unit, v, margin) == Some(disc.bands[i]) ==> Takes(disc, unit, disc.bands[i], v, margin)
  {
    var s := disc.bands;
    Partition(s, v);
    if CrossBasis(unit, s) && Takes(disc, unit, s[i], v, margin) { NotNearWhenInside(disc, i, v, margin); }
    if Chosen(disc, unit, v, margin) == Some(s[i]) {
      var j := SomeHit(s, v);
      assert s[i] == s[j] && s[i] in s;
    }
  }

  lemma {:induction false} ChosenFrom(disc: Disc, unit: Unit, v: real, margin: real) returns (i: nat)
    requires Accepted(disc) && Chosen(disc, unit, v, margin).Some?
    ensures i < |disc.bands| && Chosen(disc, unit, v, margin) == Some(disc.bands[i])
  {
    i := SomeHit(disc.bands, v);
    Partition(disc.bands, v);
  }

  /** No value from `lo` to `hi` is one that `b` takes. */
  predicate Misses(disc: Disc, unit: Unit, b: Band, lo: real, hi: real, margin: real) {
    if CrossBasis(unit, disc.bands) then
      || (b.lo.Some? && hi <= b.lo.value + margin)
      || (b.hi.Some? && b.hi.value - margin <= lo)
      || (b.lo.Some? && b.hi.Some? && b.hi.value - margin <= b.lo.value + margin)
    else !LowerOk(b, hi) || !UpperOk(b, lo)
  }

  lemma {:induction false} TakenBetween(disc: Disc, unit: Unit, b: Band, lo: real, hi: real, margin: real)
    returns (v: real)
    requires lo <= hi && margin >= 0.0 && !Misses(disc, unit, b, lo, hi, margin)
    ensures lo <= v <= hi && Takes(disc, unit, b, v, margin)
  {
    if Takes(disc, unit, b, lo, margin) {
      v := lo;
    } else if Takes(disc, unit, b, hi, margin) {
      v := hi;
    } else if CrossBasis(unit, disc.bands) {
      v := (b.lo.value + b.hi.value) / 2.0;
    } else {
      v := InteriorPoint(b);
    }
  }

  /** Every value from `lo` to `hi` makes the choice `c`: the band takes both ends,
      or no band takes anything in between. */
  predicate SameChoice(disc: Disc, unit: Unit, c: Option<Band>, lo: real, hi: real, margin: real) {
    match c
    case Some(b) => Takes(disc, unit, b, lo, margin) && Takes(disc, unit, b, hi, margin)
    case None => forall b | b in disc.bands :: Misses(disc, unit, b, lo, hi, margin)
  }

  ghost predicate ValuesChoose(disc: Disc, unit: Unit, c: Option<Band>, lo: real, hi: real, margin: real) {
    forall v: real | lo <= v <= hi :: Chosen(disc, unit, v, margin) == c
  }

  lemma {:induction false} SameBandExactly(disc: Disc, unit: Unit, i: nat, lo: real, hi: real, margin: real)
    requires Accepted(disc) && i < |disc.bands| && margin >= 0.0 && lo <= hi
    ensures ValuesChoose(disc, unit, Some(disc.bands[i]), lo, hi, margin)
            <==> SameChoice(disc, unit, Some(disc.bands[i]), lo, hi, margin)
  {
    var b := disc.bands[i];
    if SameChoice(disc, unit, Some(b), lo, hi, margin) {
      forall v: real | lo <= v <= hi ensures Chosen(disc, unit, v, margin) == Some(b) {
        ChosenExactly(disc, unit, i, v, margin);
      }
    } else {
      ChosenExactly(disc, unit, i, lo, margin);
      ChosenExactly(disc, unit, i, hi, margin);
    }
  }

  lemma {:induction false} NoBandExactly(disc: Disc, unit: Unit, lo: real, hi: real, margin: real)
    requires Accepted(disc) && margin >= 0.0 && lo <= hi
    ensures ValuesChoose(disc, unit, None, lo, hi, margin)
            <==> SameChoice(disc, unit, None, lo, hi, margin)
  {
    if SameChoice(disc, unit, None, lo, hi, margin) {
      forall v: real | lo <= v <= hi ensures Chosen(disc, unit, v, margin) == None {
        if Chosen(disc, unit, v, margin).Some? {
          var i := ChosenFrom(disc, unit, v, margin);
          ChosenExactly(disc, unit, i, v, margin);
          assert disc.bands[i] in disc.bands;
        }
      }
    } else {
      var b :| b in disc.bands && !Misses(disc, unit, b, lo, hi, margin);
      var i :| 0 <= i < |disc.bands| && disc.bands[i] == b;
      var v := TakenBetween(disc, unit, b, lo, hi, margin);
      ChosenExactly(disc, unit, i, v, margin);
    }
  }

  /** Both cases: the choice that one unit makes at `v`, made by another all the way. */
  lemma {:induction false} SameChoiceExactly(disc: Disc, unit: Unit, other: Unit, v: real, lo: real, hi: real,
                                             margin: real)
    requires Accepted(disc) && margin >= 0.0 && lo <= hi
    ensures ValuesChoose(disc, unit, Chosen(disc, other, v, margin), lo, hi, margin)
            <==> SameChoice(disc, unit, Chosen(disc, other, v, margin), lo, hi, margin)
  {
    if Chosen(disc, other, v, margin).Some? {
      var i := ChosenFrom(disc, other, v, margin);
      SameBandExactly(disc, unit, i, lo, hi, margin);
    } else {
      NoBandExactly(disc, unit, lo, hi, margin);
    }
  }

  /** Every reading in unit `web` that agrees with `image` makes the choice `c`. */
  ghost predicate ReadingsChoose(disc: Disc, image: Reading, web: Unit, c: Option<Band>, agreeTol: real, margin: real)
    requires Convertible(disc, image)
  {
    forall r: Reading | r.unit == Some(web) && Agree(disc, image, r, agreeTol) ::
      Chosen(disc, web, Base(r), margin) == c
  }

  lemma {:induction false} ReadingOf(unit: Unit, v: real) returns (r: Reading)
    requires unit.factor > 0.0
    ensures r.unit == Some(unit) && Base(r) == v
  {
    r := Reading(v / unit.factor, Some(unit));
  }

  lemma {:induction false} ReadingsAreValues(disc: Disc, image: Reading, web: Unit, c: Option<Band>,
                                             agreeTol: real, margin: real)
    requires Convertible(disc, image) && web.family == disc.family && web.factor > 0.0
    ensures ReadingsChoose(disc, image, web, c, agreeTol, margin)
            <==> ValuesChoose(disc, web, c, Base(image) - Tolerance(agreeTol), Base(image) + Tolerance(agreeTol),
                              margin)
  {
    var lo, hi := Base(image) - Tolerance(agreeTol), Base(image) + Tolerance(agreeTol);
    if ReadingsChoose(disc, image, web, c, agreeTol, margin) {
      forall v: real | lo <= v <= hi ensures Chosen(disc, web, v, margin) == c {
        var r := ReadingOf(web, v);
        assert Agree(disc, image, r, agreeTol);
      }
    }
  }

  /** Every reading in unit `web` that agrees with the photographed one chooses the
      band that one chooses if and only if the band takes both ends of the
      tolerance in that unit, or, where none was chosen, no band takes any of it. */
  lemma {:induction false} SourcesInterchangeableExactly(disc: Disc, image: Reading, web: Unit,
                                                         agreeTol: real, margin: real)
    requires Accepted(disc) && Convertible(disc, image) && margin >= 0.0
    requires web.family == disc.family && web.factor > 0.0
    ensures var c := Chosen(disc, image.unit.value, Base(image), margin);
            ReadingsChoose(disc, image, web, c, agreeTol, margin)
            <==> SameChoice(disc, web, c, Base(image) - Tolerance(agreeTol), Base(image) + Tolerance(agreeTol), margin)
  {
    var c := Chosen(disc, image.unit.value, Base(image), margin);
    var lo, hi := Base(image) - Tolerance(agreeTol), Base(image) + Tolerance(agreeTol);
    ReadingsAreValues(disc, image, web, c, agreeTol, margin);
    SameChoiceExactly(disc, web, image.unit.value, Base(image), lo, hi, margin);
  }

  predicate OneBandPerCode(disc: Disc) {
    forall i, j | 0 <= i < j < |disc.bands| :: disc.bands[i].hs6 != disc.bands[j].hs6
  }

  lemma {:induction false} SameCodeSameBand(disc: Disc, unit: Unit, other: Unit, v: real, w: real, margin: real)
    requires Accepted(disc) && OneBandPerCode(disc)
    requires Chosen(disc, unit, v, margin).Some? && Chosen(disc, other, w, margin).Some?
    ensures Chosen(disc, unit, v, margin).value.hs6 == Chosen(disc, other, w, margin).value.hs6
            <==> Chosen(disc, unit, v, margin) == Chosen(disc, other, w, margin)
  {
    var i := ChosenFrom(disc, unit, v, margin);
    var j := ChosenFrom(disc, other, w, margin);
    assert i < j ==> disc.bands[i].hs6 != disc.bands[j].hs6;
    assert j < i ==> disc.bands[j].hs6 != disc.bands[i].hs6;
  }

  /** The same about codes, one band being read for a code: every agreeing reading in
      the unit selects what the photographed one selects under the same condition. */
  lemma {:induction false} SourcesSelectSameCodeExactly(disc: Disc, image: Reading, web: Unit,
                                                        agreeTol: real, margin: real)
    requires Accepted(disc) && OneBandPerCode(disc) && Convertible(disc, image) && margin >= 0.0
    requires web.family == disc.family && web.factor > 0.0
    ensures (forall r: Reading | r.unit == Some(web) && Agree(disc, image, r, agreeTol) ::
               Select(disc, r, margin) == Select(disc, image, margin))
            <==> SameChoice(disc, web, Chosen(disc, image.unit.value, Base(image), margin),
                            Base(image) - Tolerance(agreeTol), Base(image) + Tolerance(agreeTol), margin)
  {
    var c := Chosen(disc, image.unit.value, Base(image), margin);
    SourcesInterchangeableExactly(disc, image, web, agreeTol, margin);
    forall r: Reading | r.unit == Some(web) && Agree(disc, image, r, agreeTol)
      ensures Select(disc, r, margin) == Select(disc, image, margin) <==> Chosen(disc, web, Base(r), margin) == c
    {
      if c.Some? && Chosen(disc, web, Base(r), margin).Some? {
        SameCodeSameBand(disc, web, image.unit.value, Base(r), Base(image), margin);
      }
    }
  }

  const LOW_FAT := RawBand("040110", None, false, Some(1.0), true, "percent", "fat", {}, Some(MassByMass))
  const MID_FAT := RawBand("040120", Some(1.0), false, Some(6.0), true, "percent", "fat", {}, Some(MassByMass))

  /** The condition is not idle. Agreement on the value is not agreement on the code: a bare percentage on
      an edge resolves from the photograph although the same value as mass per
      volume, read on the web, is one the edge guard refuses. */
  lemma {:induction false} AgreedReadingsMayDifferInCode()
    ensures var image := Reading(1.0, Some(Unit("percent", 1.0, None)));
            var web := Reading(1.0, Some(Unit("percent", 1.0, Some(MassByVolume))));
            exists disc: Disc | Accepted(disc) ::
              && Resolve(disc, Some(image), Some(web), 0.0, 0.5) == Resolved("040110", Image)
              && Select(disc, web, 0.5) == None
  {
    var image := Reading(1.0, Some(Unit("percent", 1.0, None)));
    var web := Reading(1.0, Some(Unit("percent", 1.0, Some(MassByVolume))));
    var disc := Disc("fat", "percent", [LOW_FAT, MID_FAT]);
    assert Chained(disc.bands) by { assert Adjacent(LOW_FAT, MID_FAT); }
    assert Contains(LOW_FAT, 1.0) && !Contains(MID_FAT, 1.0);
    HitsOne(disc.bands, 0, 1.0);
    assert disc.bands[0] == LOW_FAT;
    assert LOW_FAT in disc.bands && Near(LOW_FAT.hi, Base(web), 0.5);
    assert Select(disc, web, 0.5) == None;
    assert Resolve(disc, Some(image), Some(web), 0.0, 0.5) == Resolved("040110", Image);
  }
}
