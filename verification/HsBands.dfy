/** Choosing a tariff code by a measured value (`silk_hs_attributes.py`).

    Each candidate code carries a numeric band read from its official text.
    A candidate set is usable only when its bands chain end to end; a reading
    then selects the one band that holds it. */
module HsBands {
  import opened Common
  import opened StableSort
  import opened Wrappers

  // ---------------------------------------------------------------- bands

  datatype Basis = MassByMass | MassByVolume | VolumeByVolume

  datatype RawBand = RawBand(
    hs6: string,
    lo: Option<real>, loInclusive: bool,
    hi: Option<real>, hiInclusive: bool,
    family: string, dimension: string, axis: set<string>, basis: Option<Basis>)

  predicate WellFormed(b: RawBand) {
    && (b.lo.Some? || b.hi.Some?)
    && (b.lo.Some? && b.hi.Some? ==> b.lo.value < b.hi.value)
    && (b.loInclusive ==> b.lo.Some?)
    && (b.hiInclusive ==> b.hi.Some?)
  }

  type Band = b: RawBand | WellFormed(b)
    witness RawBand("", Some(0.0), false, None, false, "", "", {}, None)

  /** One bound phrase matched in the official text ("exceeding 6%"). */
  datatype Side = Lower | Upper
  datatype Event = Event(side: Side, inclusive: bool, value: real, family: string, factor: real, pos: nat)

  function OfFamily(evs: seq<Event>, family: string): seq<Event> {
    if evs == [] then []
    else (if evs[0].family == family then [evs[0]] else []) + OfFamily(evs[1..], family)
  }

  lemma {:induction false} OfFamilyHas(evs: seq<Event>, i: nat)
    requires i < |evs|
    ensures OfFamily(evs, evs[i].family) != []
  {
    if i > 0 { OfFamilyHas(evs[1..], i - 1); }
  }

  function LastOn(evs: seq<Event>, side: Side): Option<Event> {
    if evs == [] then None
    else if evs[|evs| - 1].side == side then Some(evs[|evs| - 1])
    else LastOn(evs[..|evs| - 1], side)
  }

  predicate Outweighs(evs: seq<Event>, f: string, g: string) {
    var a, b := OfFamily(evs, f), OfFamily(evs, g);
    a != [] && (|b| < |a| || (|a| == |b| && b[|b| - 1].pos < a[|a| - 1].pos))
  }

  /** The family with most events among the first `n`; a later one on a tie. */
  function Dominant(evs: seq<Event>, n: nat): (family: string)
    requires 1 <= n <= |evs|
    ensures OfFamily(evs, family) != []
  {
    OfFamilyHas(evs, n - 1);
    var here := evs[n - 1].family;
    if n == 1 then here
    else
      var best := Dominant(evs, n - 1);
      if Outweighs(evs, here, best) then here else best
  }

  /** `f` has more phrases in the text than `g`, or as many, the last of them no earlier. */
  ghost predicate Prevails(evs: seq<Event>, f: string, g: string) {
    var a, b := OfFamily(evs, f), OfFamily(evs, g);
    |a| > |b| || (|a| == |b| && (a != [] ==> a[|a| - 1].pos >= b[|b| - 1].pos))
  }

  lemma {:induction false} ChosenPrevails(evs: seq<Event>, here: string, best: string)
    ensures var chosen := if Outweighs(evs, here, best) then here else best;
            Prevails(evs, chosen, here) && Prevails(evs, chosen, best)
  {}

  lemma {:induction false} PrevailsOn(evs: seq<Event>, f: string, g: string, h: string)
    requires Prevails(evs, f, g) && Prevails(evs, g, h)
    ensures Prevails(evs, f, h)
  {}

  /** The family chosen has more phrases than any other, or as many and the last of all. */
  lemma {:induction false} DominantHasMost(evs: seq<Event>, n: nat, i: nat)
    requires 1 <= n <= |evs| && i < n
    ensures Prevails(evs, Dominant(evs, n), evs[i].family)
  {
    if n > 1 {
      var best := Dominant(evs, n - 1);
      ChosenPrevails(evs, evs[n - 1].family, best);
      if i < n - 1 {
        DominantHasMost(evs, n - 1, i);
        PrevailsOn(evs, Dominant(evs, n), best, evs[i].family);
      }
    }
  }

  function Bound(e: Option<Event>): Option<real> {
    if e.Some? then Some(e.value.value * e.value.factor) else None
  }

  /** Two ends that contradict each other make no band. */
  function BandOfEnds(hs6: string, lo: Option<Event>, hi: Option<Event>, family: string, dimension: string,
                      axis: set<string>, basis: Option<Basis>): Option<Band>
    requires lo.Some? || hi.Some?
  {
    if lo.Some? && hi.Some? && Bound(lo).value >= Bound(hi).value then None
    else if dimension == "" then None
    else Some(RawBand(hs6, Bound(lo), lo.Some? && lo.value.inclusive,
                      Bound(hi), hi.Some? && hi.value.inclusive, family, dimension, axis, basis))
  }

  lemma {:induction false} SomeEnd(evs: seq<Event>)
    requires evs != []
    ensures LastOn(evs, Lower).Some? || LastOn(evs, Upper).Some?
  {
    assert evs[|evs| - 1].side == Lower || evs[|evs| - 1].side == Upper;
  }

  /** The band that the phrases of one unit family give. */
  function BandOfFamily(hs6: string, chosen: seq<Event>, family: string, dimensionAt: nat -> string,
                        axis: set<string>, basis: Option<Basis>): Option<Band>
    requires chosen != []
  {
    var dimension := if family in {"weight", "volume", "length"} then family else dimensionAt(chosen[0].pos);
    SomeEnd(chosen);
    BandOfEnds(hs6, LastOn(chosen, Lower), LastOn(chosen, Upper), family, dimension, axis, basis)
  }

  function BandOf(hs6: string, evs: seq<Event>, dimensionAt: nat -> string,
                  axis: set<string>, basis: Option<Basis>): Option<Band>
  {
    if evs == [] then None
    else
      var family := Dominant(evs, |evs|);
      BandOfFamily(hs6, OfFamily(evs, family), family, dimensionAt, axis, basis)
  }

  predicate On(e: Event, side: Side, family: string) {
    e.side == side && e.family == family
  }

  predicate Unbounded(evs: seq<Event>, side: Side, family: string) {
    forall j | 0 <= j < |evs| :: !On(evs[j], side, family)
  }

  /** Phrase `k` is the last of the text on its side in its unit family. */
  predicate LastAt(evs: seq<Event>, k: nat, side: Side, family: string) {
    && k < |evs| && On(evs[k], side, family)
    && forall j | k < j < |evs| :: !On(evs[j], side, family)
  }

  /** That phrase gives this end with this strictness. */
  predicate LastPhrase(evs: seq<Event>, k: nat, side: Side, family: string, end: real, inclusive: bool) {
    LastAt(evs, k, side, family) && Bound(Some(evs[k])) == Some(end) && evs[k].inclusive == inclusive
  }

  lemma {:induction false} OfFamilySnoc(evs: seq<Event>, e: Event, family: string)
    ensures OfFamily(evs + [e], family) == OfFamily(evs, family) + if e.family == family then [e] else []
  {
    if evs == [] {
      assert evs + [e] == [e];
    } else {
      OfFamilySnoc(evs[1..], e, family);
      JoinedTail(evs, [e]);
      Assoc(if evs[0].family == family then [evs[0]] else [], OfFamily(evs[1..], family),
            if e.family == family then [e] else []);
    }
  }

  lemma {:induction false} LastOnStep(front: seq<Event>, e: Event, side: Side, family: string)
    ensures LastOn(OfFamily(front + [e], family), side)
         == if On(e, side, family) then Some(e) else LastOn(OfFamily(front, family), side)
  {
    OfFamilySnoc(front, e, family);
    var chosen := OfFamily(front, family);
    assert (chosen + [e])[..|chosen|] == chosen && chosen + [] == chosen;
  }

  /** The last phrase of a side among those of a family is the last in the text. */
  lemma {:induction false} LastOnIs(evs: seq<Event>, side: Side, family: string) returns (k: nat)
    ensures LastOn(OfFamily(evs, family), side) == None <==> Unbounded(evs, side, family)
    ensures LastOn(OfFamily(evs, family), side).Some? ==>
              LastAt(evs, k, side, family) && LastOn(OfFamily(evs, family), side) == Some(evs[k])
  {
    k := 0;
    if evs != [] {
      var front, e := evs[..|evs| - 1], evs[|evs| - 1];
      assert evs == front + [e];
      k := LastOnIs(front, side, family);
      LastOnStep(front, e, side, family);
      if On(e, side, family) { k := |front|; }
    }
  }

  /** An end of a band and the phrase it was read from. */
  predicate ReadFrom(end: Option<real>, inclusive: bool, phrase: Option<Event>) {
    end == Bound(phrase) && (phrase.Some? ==> inclusive == phrase.value.inclusive)
  }

  lemma {:induction false} EndFromPhrase(evs: seq<Event>, side: Side, family: string, end: Option<real>,
                                         inclusive: bool)
    requires ReadFrom(end, inclusive, LastOn(OfFamily(evs, family), side))
    ensures end.Some? ==> exists k: nat :: LastPhrase(evs, k, side, family, end.value, inclusive)
    ensures end.None? ==> Unbounded(evs, side, family)
  {
    var k := LastOnIs(evs, side, family);
    assert end.Some? ==> LastPhrase(evs, k, side, family, end.value, inclusive);
  }

  lemma {:induction false} EndsOf(chosen: seq<Event>, family: string, dimensionAt: nat -> string, b: Band)
    requires chosen != [] && BandOfFamily(b.hs6, chosen, family, dimensionAt, b.axis, b.basis) == Some(b)
    ensures b.family == family
    ensures ReadFrom(b.lo, b.loInclusive, LastOn(chosen, Lower))
    ensures ReadFrom(b.hi, b.hiInclusive, LastOn(chosen, Upper))
  {}

  lemma {:induction false} BandKeeps(hs6: string, chosen: seq<Event>, family: string, dimensionAt: nat -> string,
                                     axis: set<string>, basis: Option<Basis>, b: Band)
    requires chosen != [] && BandOfFamily(hs6, chosen, family, dimensionAt, axis, basis) == Some(b)
    ensures b.hs6 == hs6 && b.axis == axis && b.basis == basis
  {}

  /** Each end of a band is the last bound phrase of its side in the band's own unit
      family, and takes its strictness from that phrase; an end is open exactly when
      there is no such phrase; the family prevails over every other of the text. */
  lemma {:induction false} EndsComeFromPhrases(hs6: string, evs: seq<Event>, dimensionAt: nat -> string,
                                               axis: set<string>, basis: Option<Basis>, b: Band)
    requires BandOf(hs6, evs, dimensionAt, axis, basis) == Some(b)
    ensures b.lo.Some? ==> exists k: nat :: LastPhrase(evs, k, Lower, b.family, b.lo.value, b.loInclusive)
    ensures b.hi.Some? ==> exists k: nat :: LastPhrase(evs, k, Upper, b.family, b.hi.value, b.hiInclusive)
    ensures b.lo.None? ==> Unbounded(evs, Lower, b.family)
    ensures b.hi.None? ==> Unbounded(evs, Upper, b.family)
    ensures forall i | 0 <= i < |evs| :: Prevails(evs, b.family, evs[i].family)
  {
    var family := Dominant(evs, |evs|);
    BandKeeps(hs6, OfFamily(evs, family), family, dimensionAt, axis, basis, b);
    EndsOf(OfFamily(evs, family), family, dimensionAt, b);
    EndFromPhrase(evs, Lower, family, b.lo, b.loInclusive);
    EndFromPhrase(evs, Upper, family, b.hi, b.hiInclusive);
    DominantIsLargest(evs);
  }

  lemma {:induction false} DominantIsLargest(evs: seq<Event>)
    requires evs != []
    ensures forall i | 0 <= i < |evs| :: Prevails(evs, Dominant(evs, |evs|), evs[i].family)
  {
    forall i | 0 <= i < |evs| ensures Prevails(evs, Dominant(evs, |evs|), evs[i].family) {
      DominantHasMost(evs, |evs|, i);
    }
  }

  predicate LowerOk(b: Band, v: real) {
    b.lo.None? || (if b.loInclusive then v >= b.lo.value else v > b.lo.value)
  }

  predicate UpperOk(b: Band, v: real) {
    b.hi.None? || (if b.hiInclusive then v <= b.hi.value else v < b.hi.value)
  }

  predicate Contains(b: Band, v: real) {
    LowerOk(b, v) && UpperOk(b, v)
  }

  // ---------------------------------------- what a band holds, by its text

  /** What a bound phrase asks of a value: "exceeding 6%" asks for more than six,
      "less than 6%" for less, "6% or more" and "not exceeding 6%" admit six. */
  predicate Obeys(v: real, phrase: Event) {
    var bound := phrase.value * phrase.factor;
    match phrase.side
    case Lower => bound < v || (phrase.inclusive && bound == v)
    case Upper => v < bound || (phrase.inclusive && bound == v)
  }

  ghost predicate ObeysLast(v: real, evs: seq<Event>, side: Side, family: string) {
    forall k: nat | LastAt(evs, k, side, family) :: Obeys(v, evs[k])
  }

  /** The first phrase of a family in the text. */
  predicate FirstOf(evs: seq<Event>, k: nat, family: string) {
    k < |evs| && evs[k].family == family && forall j | 0 <= j < k :: evs[j].family != family
  }

  lemma {:induction false} FirstOfIs(evs: seq<Event>, family: string) returns (k: nat)
    requires OfFamily(evs, family) != []
    ensures FirstOf(evs, k, family) && OfFamily(evs, family)[0] == evs[k]
  {
    k := 0;
    if evs[0].family != family {
      var j := FirstOfIs(evs[1..], family);
      k := j + 1;
      assert evs[1..][j] == evs[k];
      forall i | 0 <= i < k ensures evs[i].family != family {
        assert i > 0 ==> evs[1..][i - 1].family != family;
      }
    }
  }

  lemma {:induction false} LowerObeys(evs: seq<Event>, b: Band, v: real)
    requires b.lo.Some? ==> exists k: nat :: LastPhrase(evs, k, Lower, b.family, b.lo.value, b.loInclusive)
    requires b.lo.None? ==> Unbounded(evs, Lower, b.family)
    ensures LowerOk(b, v) <==> ObeysLast(v, evs, Lower, b.family)
  {
    if b.lo.Some? {
      var k: nat :| LastPhrase(evs, k, Lower, b.family, b.lo.value, b.loInclusive);
      OnlyLast(evs, k, Lower, b.family);
    }
  }

  lemma {:induction false} UpperObeys(evs: seq<Event>, b: Band, v: real)
    requires b.hi.Some? ==> exists k: nat :: LastPhrase(evs, k, Upper, b.family, b.hi.value, b.hiInclusive)
    requires b.hi.None? ==> Unbounded(evs, Upper, b.family)
    ensures UpperOk(b, v) <==> ObeysLast(v, evs, Upper, b.family)
  {
    if b.hi.Some? {
      var k: nat :| LastPhrase(evs, k, Upper, b.family, b.hi.value, b.hiInclusive);
      OnlyLast(evs, k, Upper, b.family);
    }
  }

  lemma {:induction false} OnlyLast(evs: seq<Event>, k: nat, side: Side, family: string)
    requires LastAt(evs, k, side, family)
    ensures forall j: nat | LastAt(evs, j, side, family) :: j == k
  {}

  /** A band read from a text holds exactly the values that obey the last phrase of
      either side in the band's family. */
  lemma {:induction false} HoldsWhatTheTextSays(hs6: string, evs: seq<Event>, dimensionAt: nat -> string,
                                                axis: set<string>, basis: Option<Basis>, b: Band, v: real)
    requires BandOf(hs6, evs, dimensionAt, axis, basis) == Some(b)
    ensures Contains(b, v) <==> ObeysLast(v, evs, Lower, b.family) && ObeysLast(v, evs, Upper, b.family)
  {
    EndsComeFromPhrases(hs6, evs, dimensionAt, axis, basis, b);
    LowerObeys(evs, b, v);
    UpperObeys(evs, b, v);
  }

  lemma {:induction false} ObeysLastIs(evs: seq<Event>, side: Side, family: string, v: real)
    ensures var e := LastOn(OfFamily(evs, family), side);
            ObeysLast(v, evs, side, family) <==> (e.Some? ==> Obeys(v, e.value))
  {
    var k := LastOnIs(evs, side, family);
    if LastOn(OfFamily(evs, family), side).Some? { OnlyLast(evs, k, side, family); }
  }

  lemma {:induction false} LastOnHas(evs: seq<Event>, side: Side)
    ensures LastOn(evs, side).Some? ==> LastOn(evs, side).value.side == side
  {
    if evs != [] && evs[|evs| - 1].side != side { LastOnHas(evs[..|evs| - 1], side); }
  }

  ghost predicate ObeysText(v: real, evs: seq<Event>, family: string) {
    ObeysLast(v, evs, Lower, family) && ObeysLast(v, evs, Upper, family)
  }

  /** Two values that obey the text. */
  lemma {:induction false} RoomFor(lo: Option<Event>, hi: Option<Event>) returns (u: real, v: real)
    requires lo.Some? ==> lo.value.side == Lower
    requires hi.Some? ==> hi.value.side == Upper
    requires lo.Some? && hi.Some? ==> Bound(lo).value < Bound(hi).value
    ensures u < v && (lo.Some? ==> Obeys(u, lo.value) && Obeys(v, lo.value))
    ensures hi.Some? ==> Obeys(u, hi.value) && Obeys(v, hi.value)
  {
    if lo.Some? && hi.Some? {
      var third := (Bound(hi).value - Bound(lo).value) / 3.0;
      u, v := Bound(lo).value + third, Bound(hi).value - third;
    } else if lo.Some? {
      u, v := Bound(lo).value + 1.0, Bound(lo).value + 2.0;
    } else if hi.Some? {
      u, v := Bound(hi).value - 2.0, Bound(hi).value - 1.0;
    } else {
      u, v := 0.0, 1.0;
    }
  }

  ghost predicate LeavesRoom(evs: seq<Event>, family: string) {
    exists u: real, v: real :: u < v && ObeysText(u, evs, family) && ObeysText(v, evs, family)
  }

  lemma {:induction false} ObeysTextIs(evs: seq<Event>, family: string, v: real)
    ensures var lo, hi := LastOn(OfFamily(evs, family), Lower), LastOn(OfFamily(evs, family), Upper);
            && (lo.Some? ==> lo.value.side == Lower) && (hi.Some? ==> hi.value.side == Upper)
            && (ObeysText(v, evs, family)
                <==> (lo.Some? ==> Obeys(v, lo.value)) && (hi.Some? ==> Obeys(v, hi.value)))
  {
    LastOnHas(OfFamily(evs, family), Lower);
    LastOnHas(OfFamily(evs, family), Upper);
    ObeysLastIs(evs, Lower, family, v);
    ObeysLastIs(evs, Upper, family, v);
  }

  lemma {:induction false} LeavesRoomExactly(evs: seq<Event>, family: string)
    ensures var lo, hi := LastOn(OfFamily(evs, family), Lower), LastOn(OfFamily(evs, family), Upper);
            LeavesRoom(evs, family) <==> (lo.Some? && hi.Some? ==> Bound(lo).value < Bound(hi).value)
  {
    var lo, hi := LastOn(OfFamily(evs, family), Lower), LastOn(OfFamily(evs, family), Upper);
    ObeysTextIs(evs, family, 0.0);
    if LeavesRoom(evs, family) {
      var u: real, v: real :| u < v && ObeysText(u, evs, family) && ObeysText(v, evs, family);
      ObeysTextIs(evs, family, u);
      ObeysTextIs(evs, family, v);
    }
    if lo.Some? && hi.Some? ==> Bound(lo).value < Bound(hi).value {
      var u, v := RoomFor(lo, hi);
      ObeysTextIs(evs, family, u);
      ObeysTextIs(evs, family, v);
    }
  }

  /** A text with bound phrases gives a band exactly when its last phrases leave room for
      more than one value and its dimension has a name. */
  lemma {:induction false} TextGivesBandExactly(hs6: string, evs: seq<Event>, dimensionAt: nat -> string,
                                                axis: set<string>, basis: Option<Basis>, k: nat)
    requires evs != [] && FirstOf(evs, k, Dominant(evs, |evs|))
    ensures BandOf(hs6, evs, dimensionAt, axis, basis).Some?
            <==> && LeavesRoom(evs, Dominant(evs, |evs|))
                 && (Dominant(evs, |evs|) in ["weight", "volume", "length"] || dimensionAt(evs[k].pos) != "")
  {
    var family := Dominant(evs, |evs|);
    LeavesRoomExactly(evs, family);
    var first := FirstOfIs(evs, family);
    assert first == k;
  }

  /** A band keeps the code, axis and basis it is given; its dimension is its family
      where that names one, and else the word before the first phrase of the family. */
  lemma {:induction false} BandIsOf(hs6: string, evs: seq<Event>, dimensionAt: nat -> string,
                                    axis: set<string>, basis: Option<Basis>, b: Band)
    requires BandOf(hs6, evs, dimensionAt, axis, basis) == Some(b)
    ensures b.hs6 == hs6 && b.axis == axis && b.basis == basis
    ensures b.family in ["weight", "volume", "length"] ==> b.dimension == b.family
    ensures b.family !in ["weight", "volume", "length"] ==>
              exists k: nat :: FirstOf(evs, k, b.family) && b.dimension == dimensionAt(evs[k].pos) && b.dimension != ""
  {
    var family := Dominant(evs, |evs|);
    BandKeeps(hs6, OfFamily(evs, family), family, dimensionAt, axis, basis, b);
    EndsOf(OfFamily(evs, family), family, dimensionAt, b);
    var k := FirstOfIs(evs, family);
  }

  /** The bands a list comprehension collects: those `bandOf` gives, in order. */
  function Bands<C>(candidates: seq<C>, bandOf: C -> Option<Band>): seq<Band> {
    if candidates == [] then []
    else
      var b := bandOf(candidates[0]);
      (if b.Some? then [b.value] else []) + Bands(candidates[1..], bandOf)
  }

  function IfHolds(v: real): Band -> Option<Band> {
    (b: Band) => if Contains(b, v) then Some(b) else None
  }

  /** The bands that hold `v`. */
  function Hits(bands: seq<Band>, v: real): seq<Band> {
    Bands(bands, IfHolds(v))
  }

  // -------------------------------------------------------- discriminator

  /** The sort key `lo`, with an absent lower end below every number. */
  predicate LowerLe(a: Band, b: Band) {
    a.lo.None? || (b.lo.Some? && a.lo.value <= b.lo.value)
  }

  predicate Uniform(bands: seq<Band>) {
    forall a, b | a in bands && b in bands ::
      a.dimension == b.dimension && a.family == b.family && a.axis == b.axis
  }

  predicate Adjacent(prev: Band, next: Band) {
    && prev.hi.Some? && next.lo.Some?
    && prev.hi.value == next.lo.value
    && prev.hiInclusive != next.loInclusive
  }

  predicate Chained(s: seq<Band>) {
    forall i | 0 <= i < |s| - 1 :: Adjacent(s[i], s[i + 1])
  }

  datatype Disc = Disc(dimension: string, family: string, bands: seq<Band>)

  function Discriminate(bands: seq<Band>): Option<Disc> {
    if |bands| < 2 || !Uniform(bands) then None
    else
      var ordered := Sort(LowerLe, bands);
      if Chained(ordered) && ordered != [] then Some(Disc(ordered[0].dimension, ordered[0].family, ordered))
      else None
  }

  // ------------------------------------------- chained bands are a partition

  lemma {:induction false} LowerLeIsOrder()
    ensures TotalPreorder(LowerLe)
  {}

  lemma {:induction false} ChainedGap(s: seq<Band>, i: nat, j: nat)
    requires Chained(s) && i < j < |s|
    ensures s[i].hi.Some? && s[j].lo.Some? && s[i].hi.value <= s[j].lo.value
    ensures i + 1 < j ==> s[i].hi.value < s[j].lo.value
    decreases j
  {
    assert Adjacent(s[j - 1], s[j]);
    if i < j - 1 {
      ChainedGap(s, i, j - 1);
    }
  }

  lemma {:induction false} ChainedDisjoint(s: seq<Band>, i: nat, j: nat, v: real)
    requires Chained(s) && i < j < |s|
    ensures !(Contains(s[i], v) && Contains(s[j], v))
  {
    ChainedGap(s, i, j);
    if i + 1 == j {
      assert Adjacent(s[i], s[j]);
    }
  }

  lemma {:induction false} ChainedStrict(s: seq<Band>)
    requires Chained(s)
    ensures StrictlySortedBy(LowerLe, s)
  {
    forall i, j | 0 <= i < j < |s| ensures LowerLe(s[i], s[j]) && !LowerLe(s[j], s[i]) {
      ChainedGap(s, i, j);
    }
  }

  lemma {:induction false} ChainedTail(s: seq<Band>)
    requires Chained(s) && s != []
    ensures Chained(s[1..])
  {
    forall i | 0 <= i < |s[1..]| - 1 ensures Adjacent(s[1..][i], s[1..][i + 1]) {
      assert Adjacent(s[i + 1], s[i + 2]);
    }
  }

  /** Walking the chain from the left finds the band of any value in its hull. */
  lemma {:induction false} FindBand(s: seq<Band>, v: real) returns (i: nat)
    requires Chained(s) && s != []
    requires LowerOk(s[0], v) && UpperOk(s[|s| - 1], v)
    ensures i < |s| && Contains(s[i], v)
  {
    if UpperOk(s[0], v) {
      i := 0;
    } else {
      assert Adjacent(s[0], s[1]);
      ChainedTail(s);
      var j := FindBand(s[1..], v);
      i := j + 1;
    }
  }

  lemma {:induction false} HullContains(s: seq<Band>, i: nat, v: real)
    requires Chained(s) && i < |s| && Contains(s[i], v)
    ensures LowerOk(s[0], v) && UpperOk(s[|s| - 1], v)
  {
    if 0 < i { ChainedGap(s, 0, i); }
    if i < |s| - 1 { ChainedGap(s, i, |s| - 1); }
  }

  lemma {:induction false} HitsNone(s: seq<Band>, v: real)
    requires forall i | 0 <= i < |s| :: !Contains(s[i], v)
    ensures Hits(s, v) == []
  {
    if s != [] {
      forall i | 0 <= i < |s[1..]| ensures !Contains(s[1..][i], v) { assert !Contains(s[i + 1], v); }
      HitsNone(s[1..], v);
    }
  }

  lemma {:induction false} HitsOne(s: seq<Band>, i: nat, v: real)
    requires i < |s| && Contains(s[i], v)
    requires forall j | 0 <= j < |s| && j != i :: !Contains(s[j], v)
    ensures Hits(s, v) == [s[i]]
  {
    var t := s[1..];
    if i == 0 {
      forall j | 0 <= j < |t| ensures !Contains(t[j], v) { assert !Contains(s[j + 1], v); }
      HitsNone(t, v);
    } else {
      forall j | 0 <= j < |t| && j != i - 1 ensures !Contains(t[j], v) { assert !Contains(s[j + 1], v); }
      HitsOne(t, i - 1, v);
    }
  }

  /** An accepted chain partitions its hull: a value has exactly one band when
      it lies between the first lower end and the last upper end, and none
      otherwise. So the test for a single hit only rejects values outside. */
  lemma {:induction false} Partition(s: seq<Band>, v: real)
    requires Chained(s) && s != []
    ensures |Hits(s, v)| == if LowerOk(s[0], v) && UpperOk(s[|s| - 1], v) then 1 else 0
    ensures forall i | 0 <= i < |s| && Contains(s[i], v) :: Hits(s, v) == [s[i]]
  {
    forall i | 0 <= i < |s| && Contains(s[i], v)
      ensures Hits(s, v) == [s[i]] && LowerOk(s[0], v) && UpperOk(s[|s| - 1], v)
    {
      forall j | 0 <= j < |s| && j != i ensures !Contains(s[j], v) {
        ChainedDisjoint(s, if i < j then i else j, if i < j then j else i, v);
      }
      HitsOne(s, i, v);
      HullContains(s, i, v);
    }
    if LowerOk(s[0], v) && UpperOk(s[|s| - 1], v) {
      var i := FindBand(s, v);
    } else {
      HitsNone(s, v);
    }
  }

  lemma {:induction false} BandsAppend<C>(a: seq<C>, b: seq<C>, bandOf: C -> Option<Band>)
    ensures Bands(a + b, bandOf) == Bands(a, bandOf) + Bands(b, bandOf)
  {
    if a == [] {
      assert a + b == b;
    } else {
      BandsAppend(a[1..], b, bandOf);
      JoinedTail(a, b);
      var first := bandOf(a[0]);
      Assoc(if first.Some? then [first.value] else [], Bands(a[1..], bandOf), Bands(b, bandOf));
    }
  }

  lemma {:induction false} BandsPermute<C>(a: seq<C>, b: seq<C>, bandOf: C -> Option<Band>)
    requires multiset(a) == multiset(b)
    ensures multiset(Bands(a, bandOf)) == multiset(Bands(b, bandOf))
  {
    SameLength(a, b);
    if a != [] {
      var j := Counterpart(a, b);
      var front, back := b[..j], b[j + 1..];
      BandsPermute(a[1..], front + back, bandOf);
      BandsAppend(front, back, bandOf);
      BandsAppend(front, [a[0]] + back, bandOf);
      assert ([a[0]] + back)[1..] == back;
    }
  }

  // -------------------------------- acceptance means partition, both ways

  /** No value lies in two of the bands, and the values covered leave no hole. */
  ghost predicate PartitionsAnInterval(bands: seq<Band>) {
    && (forall v: real :: |Hits(bands, v)| <= 1)
    && (forall u: real, v: real, w: real | u < v < w && Hits(bands, u) != [] && Hits(bands, w) != [] ::
          Hits(bands, v) != [])
  }

  function InteriorPoint(b: Band): (v: real)
    ensures b.lo.Some? ==> b.lo.value < v
    ensures b.hi.Some? ==> v < b.hi.value
    ensures Contains(b, v)
  {
    if b.lo.None? then b.hi.value - 1.0
    else if b.hi.None? then b.lo.value + 1.0
    else (b.lo.value + b.hi.value) / 2.0
  }

  /** How many bands hold a value does not depend on their order. */
  lemma {:induction false} HitsPermute(a: seq<Band>, b: seq<Band>, v: real)
    requires multiset(a) == multiset(b)
    ensures |Hits(a, v)| == |Hits(b, v)|
  {
    BandsPermute(a, b, IfHolds(v));
    assert |multiset(Hits(a, v))| == |multiset(Hits(b, v))|;
  }

  lemma {:induction false} TwoHits(s: seq<Band>, i: nat, j: nat, v: real)
    requires i < j < |s| && Contains(s[i], v) && Contains(s[j], v)
    ensures |Hits(s, v)| >= 2
  {
    BandsAppend(s[..i + 1], s[i + 1..], IfHolds(v));
    assert s == s[..i + 1] + s[i + 1..];
    OneHit(s[..i + 1], i, v);
    OneHit(s[i + 1..], j - i - 1, v);
  }

  lemma {:induction false} OneHit(s: seq<Band>, i: nat, v: real)
    requires i < |s| && Contains(s[i], v)
    ensures Hits(s, v) != []
  {
    if i > 0 { OneHit(s[1..], i - 1, v); }
  }

  lemma {:induction false} SomeHit(s: seq<Band>, v: real) returns (i: nat)
    requires Hits(s, v) != []
    ensures i < |s| && Contains(s[i], v)
  {
    if Contains(s[0], v) {
      i := 0;
    } else {
      var j := SomeHit(s[1..], v);
      i := j + 1;
    }
  }

  /** Disjoint bands in order of lower end: each ends before the next begins. */
  lemma {:induction false} DisjointGap(s: seq<Band>, i: nat, j: nat)
    requires SortedBy(LowerLe, s) && i < j < |s|
    requires forall v: real :: |Hits(s, v)| <= 1
    ensures s[i].hi.Some? && s[j].lo.Some? && s[i].hi.value <= s[j].lo.value
    ensures s[i].hi.value == s[j].lo.value ==> !(s[i].hiInclusive && s[j].loInclusive)
  {
    var p, n := s[i], s[j];
    assert LowerLe(p, n);
    if n.lo.None? {
      var v := (if p.hi.value <= n.hi.value then p.hi.value else n.hi.value) - 1.0;
      TwoHits(s, i, j, v);
    } else if p.hi.None? {
      TwoHits(s, i, j, InteriorPoint(n));
    } else if p.hi.value > n.lo.value {
      var top := if n.hi.Some? && n.hi.value < p.hi.value then n.hi.value else p.hi.value;
      TwoHits(s, i, j, (n.lo.value + top) / 2.0);
    } else if p.hi.value == n.lo.value && p.hiInclusive && n.loInclusive {
      TwoHits(s, i, j, p.hi.value);
    }
  }

  /** A value at or past one band's end and at or before the next band's start
      that some band holds lies on the shared end. */
  lemma {:induction false} NothingBetween(s: seq<Band>, i: nat, v: real)
    requires SortedBy(LowerLe, s) && i + 1 < |s|
    requires forall u: real :: |Hits(s, u)| <= 1
    requires Hits(s, v) != []
    requires s[i].hi.Some? && s[i + 1].lo.Some? && s[i].hi.value <= v <= s[i + 1].lo.value
    ensures Contains(s[i], v) || Contains(s[i + 1], v)
  {
    var k := SomeHit(s, v);
    if k < i {
      DisjointGap(s, k, i);
    } else if k > i + 1 {
      DisjointGap(s, i + 1, k);
    }
  }

  lemma {:induction false} PartitionChains(s: seq<Band>)
    requires SortedBy(LowerLe, s) && PartitionsAnInterval(s)
    ensures Chained(s)
  {
    forall i | 0 <= i < |s| - 1 ensures Adjacent(s[i], s[i + 1]) {
      DisjointGap(s, i, i + 1);
      OneHit(s, i, InteriorPoint(s[i]));
      OneHit(s, i + 1, InteriorPoint(s[i + 1]));
      var middle := (s[i].hi.value + s[i + 1].lo.value) / 2.0;
      NothingBetween(s, i, middle);
    }
  }

  lemma {:induction false} ChainPartitions(s: seq<Band>)
    requires Chained(s) && s != []
    ensures PartitionsAnInterval(s)
  {
    forall v: real ensures |Hits(s, v)| <= 1 { Partition(s, v); }
    forall u: real, v: real, w: real | u < v < w && Hits(s, u) != [] && Hits(s, w) != []
      ensures Hits(s, v) != []
    {
      Partition(s, u);
      Partition(s, v);
      Partition(s, w);
    }
  }

  /** One dimension, one family and one axis. */
  ghost predicate OfOneKind(bands: seq<Band>) {
    forall i, j | 0 <= i < j < |bands| ::
      bands[i].dimension == bands[j].dimension && bands[i].family == bands[j].family && bands[i].axis == bands[j].axis
  }

  lemma {:induction false} UniformExactly(bands: seq<Band>)
    ensures Uniform(bands) <==> OfOneKind(bands)
  {
    if OfOneKind(bands) {
      forall a, b | a in bands && b in bands
        ensures a.dimension == b.dimension && a.family == b.family && a.axis == b.axis
      {
        var i :| 0 <= i < |bands| && bands[i] == a;
        var j :| 0 <= j < |bands| && bands[j] == b;
      }
    }
  }

  /** The discriminator accepts exactly the uniform candidate sets of two or
      more bands that partition an interval, in whatever order they arrive. */
  lemma {:induction false} AcceptsExactlyPartitions(bands: seq<Band>)
    ensures Discriminate(bands).Some?
            <==> |bands| >= 2 && OfOneKind(bands) && PartitionsAnInterval(bands)
  {
    UniformExactly(bands);
    var ordered := Sort(LowerLe, bands);
    LowerLeIsOrder();
    SortPermutes(LowerLe, bands);
    SortSorted(LowerLe, bands);
    forall v: real ensures |Hits(bands, v)| == |Hits(ordered, v)| { HitsPermute(bands, ordered, v); }
    assert PartitionsAnInterval(bands) <==> PartitionsAnInterval(ordered) by {
      assert forall v: real :: Hits(bands, v) == [] <==> |Hits(bands, v)| == 0;
      assert forall v: real :: Hits(ordered, v) == [] <==> |Hits(ordered, v)| == 0;
    }
    if |bands| >= 2 {
      if Chained(ordered) { ChainPartitions(ordered); }
      if PartitionsAnInterval(ordered) { PartitionChains(ordered); }
    }
  }

  /** What is accepted is the candidates' own bands, each as often as it was given and
      in order of lower end, under the dimension and family of every one of them. */
  lemma {:induction false} AcceptedIs(bands: seq<Band>)
    requires Discriminate(bands).Some?
    ensures var disc := Discriminate(bands).value;
            && multiset(disc.bands) == multiset(bands)
            && (forall b | b in bands :: b in disc.bands && b.family == disc.family && b.dimension == disc.dimension)
            && (forall b | b in disc.bands :: b in bands)
            && (forall i, j | 0 <= i < j < |disc.bands| ::
                  disc.bands[j].lo.Some?
                  && (disc.bands[i].lo.Some? ==> disc.bands[i].lo.value < disc.bands[j].lo.value))
  {
    var ordered := Sort(LowerLe, bands);
    SortPermutes(LowerLe, bands);
    assert ordered[0] in multiset(bands);
    forall b ensures b in bands <==> b in ordered {
      assert b in bands <==> b in multiset(bands);
      assert b in ordered <==> b in multiset(ordered);
    }
    ChainedStrict(ordered);
  }

  // ------------------------------------------------- independence of order

  lemma {:induction false} AcceptedOrderUnique(a: seq<Band>, b: seq<Band>)
    requires multiset(a) == multiset(b) && Discriminate(a).Some?
    ensures Discriminate(b) == Discriminate(a)
  {
    LowerLeIsOrder();
    SortPermutes(LowerLe, a);
    SortPermutes(LowerLe, b);
    SortSorted(LowerLe, b);
    var ordered := Sort(LowerLe, a);
    ChainedStrict(ordered);
    StrictOrderUnique(LowerLe, ordered, Sort(LowerLe, b));
    forall x ensures x in a <==> x in b {
      assert x in a <==> x in multiset(a);
      assert x in b <==> x in multiset(b);
    }
    assert |multiset(a)| == |multiset(b)|;
  }

  /** Reordering the candidates changes neither acceptance nor the result. */
  lemma {:induction false} OrderIndependent<C>(a: seq<C>, b: seq<C>, bandOf: C -> Option<Band>)
    requires multiset(a) == multiset(b)
    ensures Discriminate(Bands(a, bandOf)) == Discriminate(Bands(b, bandOf))
  {
    BandsPermute(a, b, bandOf);
    if Discriminate(Bands(a, bandOf)).Some? {
      AcceptedOrderUnique(Bands(a, bandOf), Bands(b, bandOf));
    } else if Discriminate(Bands(b, bandOf)).Some? {
      AcceptedOrderUnique(Bands(b, bandOf), Bands(a, bandOf));
    }
  }
}
