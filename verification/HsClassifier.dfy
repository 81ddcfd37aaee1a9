/** Ranking and merging classification candidates (`silk_hs_classifier.py`). */
module HsClassifier {
  import opened Common
  import opened KeyedBest
  import opened Rounding
  import opened StableSort
  import opened Wrappers

  datatype Source = Given | Deterministic | Llm

  datatype Candidate = Candidate(
    hs6: string, overlap: Option<real>, seedOverlap: Option<real>, confidence: Option<real>,
    source: Source, verified: bool, text: string)

  /** Python's `x or 0.0`. */
  function OrZero(x: Option<real>): real {
    if x.Some? then x.value else 0.0
  }

  predicate Passes(c: Candidate, minOverlap: real) {
    OrZero(c.overlap) >= minOverlap
  }

  /** Lexicographic: shown at all, proposed by the model, overlap, confidence. */
  predicate RankLess(a: Candidate, b: Candidate, minOverlap: real) {
    var ap, bp := Passes(a, minOverlap), Passes(b, minOverlap);
    if ap != bp then bp
    else if a.source.Llm? != b.source.Llm? then b.source.Llm?
    else if OrZero(a.overlap) != OrZero(b.overlap) then OrZero(a.overlap) < OrZero(b.overlap)
    else OrZero(a.confidence) < OrZero(b.confidence)
  }

  /** `c` is at least as good as `d`: shown if `d` is; at the same standing proposed by
      the model if `d` is; that too alike, of no smaller overlap; and all alike, of no
      smaller confidence. What is unknown counts as zero. */
  ghost predicate AtLeast(c: Candidate, d: Candidate, minOverlap: real) {
    var overC := if c.overlap == None then 0.0 else c.overlap.value;
    var overD := if d.overlap == None then 0.0 else d.overlap.value;
    var confC := if c.confidence == None then 0.0 else c.confidence.value;
    var confD := if d.confidence == None then 0.0 else d.confidence.value;
    var standing := (overC >= minOverlap) == (overD >= minOverlap);
    var alike := standing && (c.source == Llm) == (d.source == Llm);
    && (overD >= minOverlap ==> overC >= minOverlap)
    && (standing && d.source == Llm ==> c.source == Llm)
    && (alike ==> overC >= overD)
    && (alike && overC == overD ==> confC >= confD)
  }

  lemma {:induction false} AtLeastIs(c: Candidate, d: Candidate, minOverlap: real)
    ensures AtLeast(c, d, minOverlap) <==> !RankLess(c, d, minOverlap)
  {}

  /** Best rank first. */
  function ByRank(minOverlap: real): (Candidate, Candidate) -> bool {
    (a: Candidate, b: Candidate) => !RankLess(a, b, minOverlap)
  }

  lemma {:induction false} ByRankIsOrder(minOverlap: real)
    ensures TotalPreorder(ByRank(minOverlap))
  {}

  // ------------------------------------------------- one candidate per code

  function Code(c: Candidate): string {
    c.hs6
  }

  function Dedupe(cands: seq<Candidate>, minOverlap: real): seq<Candidate> {
    Sort(ByRank(minOverlap), Collect(Code, ByRank(minOverlap), cands))
  }

  method DedupeCandidates(cands: seq<Candidate>, minOverlap: real) returns (r: seq<Candidate>)
    ensures r == Dedupe(cands, minOverlap)
  {
    var seen: seq<Candidate> := [];
    for i := 0 to |cands|
      invariant seen == Collect(Code, ByRank(minOverlap), cands[..i])
    {
      assert cands[..i + 1][..i] == cands[..i];
      seen := Put(Code, ByRank(minOverlap), seen, cands[i]);
    }
    assert cands[..|cands|] == cands;
    r := Sort(ByRank(minOverlap), seen);
  }

  /** The candidate a code should keep: the first of its highest rank. */
  function BestFor(cands: seq<Candidate>, code: string, minOverlap: real): Option<Candidate> {
    Best(Code, ByRank(minOverlap), cands, code)
  }

  /** What deduplication keeps: one candidate per code, each the first of the
      highest rank for its code, listed best rank first. */
  lemma {:induction false} DedupeIs(cands: seq<Candidate>, minOverlap: real)
    ensures OnePerKey(Code, Dedupe(cands, minOverlap))
    ensures SortedBy(ByRank(minOverlap), Dedupe(cands, minOverlap))
    ensures forall i, j | 0 <= i < j < |Dedupe(cands, minOverlap)| ::
              AtLeast(Dedupe(cands, minOverlap)[i], Dedupe(cands, minOverlap)[j], minOverlap)
    ensures forall c :: c in Dedupe(cands, minOverlap) <==> BestFor(cands, c.hs6, minOverlap) == Some(c)
    ensures forall c, d | c in Dedupe(cands, minOverlap) && d in cands && d.hs6 == c.hs6 ::
              AtLeast(c, d, minOverlap)
  {
    var le := ByRank(minOverlap);
    var s := Collect(Code, le, cands);
    CollectHoldsBest(Code, le, cands, "");
    ByRankIsOrder(minOverlap);
    SortSorted(le, s);
    SortPermutes(le, s);
    PermutedOnePerKey(Code, s, Dedupe(cands, minOverlap));
    forall c ensures c in Dedupe(cands, minOverlap) <==> BestFor(cands, c.hs6, minOverlap) == Some(c) {
      CollectMember(Code, le, cands, c);
    }
    forall c, d | c in Dedupe(cands, minOverlap) && d in cands && d.hs6 == c.hs6
      ensures AtLeast(c, d, minOverlap)
    {
      BestIsMaximal(Code, le, cands, c.hs6);
      assert Code(d) == c.hs6;
      assert le(c, d);
      AtLeastIs(c, d, minOverlap);
    }
    forall i, j | 0 <= i < j < |Dedupe(cands, minOverlap)|
      ensures AtLeast(Dedupe(cands, minOverlap)[i], Dedupe(cands, minOverlap)[j], minOverlap)
    {
      AtLeastIs(Dedupe(cands, minOverlap)[i], Dedupe(cands, minOverlap)[j], minOverlap);
    }
  }

  /** Equally ranked candidates stay in the order in which their codes were first seen. */
  lemma {:induction false} DedupeKeepsTies(cands: seq<Candidate>, minOverlap: real, c: Candidate)
    ensures Ties(ByRank(minOverlap), c, Dedupe(cands, minOverlap))
         == Ties(ByRank(minOverlap), c, Collect(Code, ByRank(minOverlap), cands))
  {
    ByRankIsOrder(minOverlap);
    SortStable(ByRank(minOverlap), Collect(Code, ByRank(minOverlap), cands), c);
  }

  // ---------------------------------------- merging in steps or all at once

  lemma {:induction false} BestOfDedupe(a: seq<Candidate>, code: string, minOverlap: real)
    ensures BestFor(Dedupe(a, minOverlap), code, minOverlap) == BestFor(a, code, minOverlap)
  {
    DedupeIs(a, minOverlap);
    ByRankIsOrder(minOverlap);
    BestOfUnique(Code, ByRank(minOverlap), Dedupe(a, minOverlap), code);
    BestIsMaximal(Code, ByRank(minOverlap), a, code);
  }

  /** Deduplicating a first pool, adding a second and deduplicating again keeps
      exactly the candidates of deduplicating everything at once. */
  lemma {:induction false} IncrementalMerge(a: seq<Candidate>, b: seq<Candidate>, minOverlap: real)
    ensures multiset(Dedupe(Dedupe(a, minOverlap) + b, minOverlap)) == multiset(Dedupe(a + b, minOverlap))
  {
    var steps, once := Dedupe(Dedupe(a, minOverlap) + b, minOverlap), Dedupe(a + b, minOverlap);
    DedupeIs(Dedupe(a, minOverlap) + b, minOverlap);
    DedupeIs(a + b, minOverlap);
    forall c ensures c in steps <==> c in once {
      BestOfDedupe(a, c.hs6, minOverlap);
      BestSuffix(Code, ByRank(minOverlap), Dedupe(a, minOverlap), a, b, c.hs6);
    }
    assert Distinct(steps) && Distinct(once);
    SameElementsSameMultiset(steps, once);
  }

  /** The lists themselves agree when no two kept candidates tie. */
  lemma {:induction false} IncrementalMergeSameList(a: seq<Candidate>, b: seq<Candidate>, minOverlap: real)
    requires StrictlySortedBy(ByRank(minOverlap), Dedupe(a + b, minOverlap))
    ensures Dedupe(Dedupe(a, minOverlap) + b, minOverlap) == Dedupe(a + b, minOverlap)
  {
    IncrementalMerge(a, b, minOverlap);
    DedupeIs(Dedupe(a, minOverlap) + b, minOverlap);
    StrictOrderUnique(ByRank(minOverlap), Dedupe(a + b, minOverlap), Dedupe(Dedupe(a, minOverlap) + b, minOverlap));
  }

  // --------------------------------------------------- the automatic verdict

  /** The automatic tier: the leader is anchored in the seed and clear of the second. */
  function ClearlyAuto(cands: seq<Candidate>, autoMin: real, autoMargin: real): Option<Candidate> {
    if cands == [] then None
    else if !(cands[0].verified && OrZero(cands[0].seedOverlap) >= autoMin) then None
    else if |cands| > 1 && OrZero(cands[0].overlap) - OrZero(cands[1].overlap) < autoMargin then None
    else Some(cands[0])
  }

  ghost predicate Tie(a: Candidate, b: Candidate, minOverlap: real) {
    !RankLess(a, b, minOverlap) && !RankLess(b, a, minOverlap)
  }

  /** Two arrangements of one pool, both best first, differ only inside ties. */
  lemma {:induction false} TiesAtTheTop(a: seq<Candidate>, b: seq<Candidate>, minOverlap: real)
    requires multiset(a) == multiset(b)
    requires SortedBy(ByRank(minOverlap), a) && SortedBy(ByRank(minOverlap), b)
    requires a != [] && b != []
    ensures Tie(a[0], b[0], minOverlap)
    ensures a[0] != b[0] ==> |a| > 1 && Tie(a[0], a[1], minOverlap)
  {
    assert a[0] in multiset(b) && b[0] in multiset(a);
    var i :| 0 <= i < |a| && a[i] == b[0];
    var j :| 0 <= j < |b| && b[j] == a[0];
    var le := ByRank(minOverlap);
    assert i > 0 ==> le(a[0], a[i]);
    assert j > 0 ==> le(b[0], b[j]);
    assert i > 1 ==> le(a[0], a[1]) && le(a[1], a[i]);
  }

  lemma {:induction false} SameLeader(s: seq<Candidate>, t: seq<Candidate>, minOverlap: real)
    requires multiset(s) == multiset(t) && |s| == |t| > 1 && s[0] == t[0]
    requires SortedBy(ByRank(minOverlap), s) && SortedBy(ByRank(minOverlap), t)
    ensures Tie(s[1], t[1], minOverlap)
  {
    TailPermutes(s, t);
    TailSorted(ByRank(minOverlap), s);
    TailSorted(ByRank(minOverlap), t);
    TiesAtTheTop(s[1..], t[1..], minOverlap);
  }

  lemma {:induction false} VerdictOfPool(s: seq<Candidate>, t: seq<Candidate>,
                                         minOverlap: real, autoMin: real, autoMargin: real)
    requires autoMargin > 0.0 && multiset(s) == multiset(t)
    requires SortedBy(ByRank(minOverlap), s) && SortedBy(ByRank(minOverlap), t)
    ensures ClearlyAuto(s, autoMin, autoMargin) == ClearlyAuto(t, autoMin, autoMargin)
  {
    SameLength(s, t);
    if s != [] {
      TiesAtTheTop(s, t, minOverlap);
      TiesAtTheTop(t, s, minOverlap);
      if s[0] == t[0] && |s| > 1 { SameLeader(s, t, minOverlap); }
    }
  }

  /** How the pool was merged never changes the automatic verdict: candidates
      that could swap places tie, and a tie at the top is never clear. */
  lemma {:induction false} MergeOrderCannotChangeVerdict(a: seq<Candidate>, b: seq<Candidate>,
                                      minOverlap: real, autoMin: real, autoMargin: real)
    requires autoMargin > 0.0
    ensures ClearlyAuto(Dedupe(Dedupe(a, minOverlap) + b, minOverlap), autoMin, autoMargin)
         == ClearlyAuto(Dedupe(a + b, minOverlap), autoMin, autoMargin)
  {
    IncrementalMerge(a, b, minOverlap);
    DedupeIs(Dedupe(a, minOverlap) + b, minOverlap);
    DedupeIs(a + b, minOverlap);
    VerdictOfPool(Dedupe(Dedupe(a, minOverlap) + b, minOverlap), Dedupe(a + b, minOverlap),
                  minOverlap, autoMin, autoMargin);
  }

  /** The measure of an automatic confirmation, by itself: a row of the local seed whose
      share of matched terms is large enough. */
  ghost predicate Anchored(c: Candidate, autoMin: real) {
    c.verified && if c.seedOverlap == None then 0.0 >= autoMin else c.seedOverlap.value >= autoMin
  }

  /** How far one overlap lies above another; an unknown one counts as zero. */
  function Ahead(c: Candidate, d: Candidate): real {
    (if c.overlap == None then 0.0 else c.overlap.value) - (if d.overlap == None then 0.0 else d.overlap.value)
  }

  /** `d` follows the leader: it is at least as good as every other candidate but `c`. */
  ghost predicate RunnerUp(pool: seq<Candidate>, c: Candidate, d: Candidate, minOverlap: real) {
    d in pool && d != c && forall e | e in pool && e != c :: AtLeast(d, e, minOverlap)
  }

  lemma {:induction false} SecondIsRunnerUp(pool: seq<Candidate>, minOverlap: real)
    requires SortedBy(ByRank(minOverlap), pool) && OnePerKey(Code, pool) && |pool| > 1
    ensures RunnerUp(pool, pool[0], pool[1], minOverlap)
  {
    var le := ByRank(minOverlap);
    forall e | e in pool && e != pool[0] ensures AtLeast(pool[1], e, minOverlap) {
      var i :| 0 <= i < |pool| && pool[i] == e;
      assert i > 1 ==> le(pool[1], pool[i]);
      AtLeastIs(pool[1], e, minOverlap);
    }
    assert Code(pool[0]) != Code(pool[1]);
  }

  lemma {:induction false} RunnersUpAgree(pool: seq<Candidate>, c: Candidate, d: Candidate, e: Candidate,
                                          minOverlap: real)
    requires RunnerUp(pool, c, d, minOverlap) && RunnerUp(pool, c, e, minOverlap)
    ensures Ahead(c, d) == Ahead(c, e)
  {
    assert AtLeast(d, e, minOverlap) && AtLeast(e, d, minOverlap);
  }

  /** Of a merged pool a candidate is confirmed automatically if and only if it is listed
      first, is anchored in the local seed, and is ahead of every runner-up by the
      margin. */
  lemma {:induction false} ConfirmedExactly(cands: seq<Candidate>, minOverlap: real, autoMin: real, autoMargin: real,
                                            c: Candidate)
    ensures var pool := Dedupe(cands, minOverlap);
            ClearlyAuto(pool, autoMin, autoMargin) == Some(c)
            <==> && c in pool && (forall d | d in pool :: AtLeast(c, d, minOverlap)) && c == pool[0]
                 && Anchored(c, autoMin)
                 && forall d | RunnerUp(pool, c, d, minOverlap) :: Ahead(c, d) >= autoMargin
  {
    var pool := Dedupe(cands, minOverlap);
    DedupeIs(cands, minOverlap);
    if pool != [] {
      forall d | d in pool ensures AtLeast(pool[0], d, minOverlap) {
        var i :| 0 <= i < |pool| && pool[i] == d;
        AtLeastIs(pool[0], d, minOverlap);
      }
      if |pool| > 1 {
        SecondIsRunnerUp(pool, minOverlap);
        forall d | RunnerUp(pool, pool[0], d, minOverlap) ensures Ahead(pool[0], d) == Ahead(pool[0], pool[1]) {
          RunnersUpAgree(pool, pool[0], d, pool[1], minOverlap);
        }
      }
    }
  }

  // --------------------------------------------- what the margin leaves open

  predicate SixDigits(code: string) {
    |code| == 6 && forall i | 0 <= i < 6 :: '0' <= code[i] <= '9'
  }

  /** An overlap as it is computed: a share rounded to two places. */
  ghost predicate ShareOfTerms(x: real) {
    exists n: nat :: n <= 100 && x == GridPoint(n, Two)
  }

  /** What validation guarantees of a candidate: six digits, a share as overlap, and,
      of one that comes from the local seed, a row there. */
  ghost predicate Validated(c: Candidate) {
    SixDigits(c.hs6) && ShareOfTerms(OrZero(c.overlap)) && (c.source.Deterministic? ==> c.verified)
  }

  /** A pool the classifier may have reached: validated, sorted, one candidate per
      code, led by these two, and confirmed automatically. */
  ghost predicate Confirms(pool: seq<Candidate>, top: Candidate, second: Candidate,
                           minOverlap: real, autoMin: real, autoMargin: real) {
    && |pool| >= 2 && pool[0] == top && pool[1] == second
    && (forall i | 0 <= i < |pool| :: Validated(pool[i]))
    && SortedBy(ByRank(minOverlap), pool) && OnePerKey(Code, pool)
    && ClearlyAuto(pool, autoMin, autoMargin) == Some(top)
  }

  ghost predicate ClearOfAll(pool: seq<Candidate>, autoMargin: real) {
    forall i | 1 <= i < |pool| :: OrZero(pool[0].overlap) - OrZero(pool[i].overlap) >= autoMargin
  }

  /** Every overlap below the display threshold is clear of the leader's. */
  ghost predicate ClearsThreshold(top: Candidate, minOverlap: real, autoMargin: real) {
    forall n: nat | n <= 100 && GridPoint(n, Two) < minOverlap :: OrZero(top.overlap) - GridPoint(n, Two) >= autoMargin
  }

  lemma {:induction false} BelowSecond(second: Candidate, c: Candidate, minOverlap: real)
    requires !RankLess(second, c, minOverlap)
    ensures !second.source.Llm? ==> OrZero(c.overlap) <= OrZero(second.overlap)
    ensures !Passes(second, minOverlap) ==> OrZero(c.overlap) < minOverlap
  {}

  /** A six-digit code other than the two. */
  function OtherCode(a: string, b: string): (code: string)
    ensures SixDigits(code) && code != a && code != b
  {
    if "080410" != a && "080410" != b then "080410"
    else if "180632" != a && "180632" != b then "180632"
    else "200819"
  }

  /** A rival by overlap, found in the seed, that ranks third because the model did
      not propose it. */
  function Rival(top: Candidate, second: Candidate, overlap: real): Candidate {
    Candidate(OtherCode(top.hs6, second.hs6), Some(overlap), Some(overlap), None, Deterministic, true, "")
  }

  lemma {:induction false} RivalRanksThird(top: Candidate, second: Candidate, overlap: real,
                                           minOverlap: real, autoMin: real, autoMargin: real)
    requires Confirms([top, second], top, second, minOverlap, autoMin, autoMargin)
    requires second.source.Llm? && (overlap >= minOverlap ==> Passes(second, minOverlap)) && ShareOfTerms(overlap)
    ensures Confirms([top, second, Rival(top, second, overlap)], top, second, minOverlap, autoMin, autoMargin)
  {
    var le, third := ByRank(minOverlap), Rival(top, second, overlap);
    var two, pool := [top, second], [top, second, third];
    assert le(two[0], two[1]);
    assert !RankLess(second, third, minOverlap) && !RankLess(top, third, minOverlap);
    assert Code(two[0]) != Code(two[1]);
    assert Validated(two[0]) && Validated(two[1]) && Validated(third);
    forall i | 0 <= i < |pool| ensures Validated(pool[i]) {
      assert pool[i] == top || pool[i] == second || pool[i] == third;
    }
  }

  lemma {:induction false} MarginHolds(pool: seq<Candidate>, top: Candidate, second: Candidate,
                                       minOverlap: real, autoMin: real, autoMargin: real)
    requires Confirms(pool, top, second, minOverlap, autoMin, autoMargin)
    requires !second.source.Llm?
             || (!Passes(second, minOverlap) && ClearsThreshold(top, minOverlap, autoMargin))
    ensures ClearOfAll(pool, autoMargin)
  {
    forall i | 2 <= i < |pool| ensures OrZero(top.overlap) - OrZero(pool[i].overlap) >= autoMargin {
      var le := ByRank(minOverlap);
      assert le(pool[1], pool[i]);
      BelowSecond(second, pool[i], minOverlap);
      assert Validated(pool[i]);
    }
  }

  /** The margin is measured against the runner-up by rank. It holds against
      every candidate, whatever else is in the pool, exactly when the model did
      not propose the runner-up, or that one fails the display threshold and
      every overlap below the threshold is clear of the leader's. */
  lemma {:induction false} MarginCoversAllExactly(top: Candidate, second: Candidate,
                                                  minOverlap: real, autoMin: real, autoMargin: real)
    requires autoMargin > 0.0
    requires Confirms([top, second], top, second, minOverlap, autoMin, autoMargin)
    ensures (forall pool: seq<Candidate> | Confirms(pool, top, second, minOverlap, autoMin, autoMargin) ::
               ClearOfAll(pool, autoMargin))
            <==> !second.source.Llm?
                 || (!Passes(second, minOverlap) && ClearsThreshold(top, minOverlap, autoMargin))
  {
    if !second.source.Llm? || (!Passes(second, minOverlap) && ClearsThreshold(top, minOverlap, autoMargin)) {
      forall pool: seq<Candidate> | Confirms(pool, top, second, minOverlap, autoMin, autoMargin)
        ensures ClearOfAll(pool, autoMargin)
      {
        MarginHolds(pool, top, second, minOverlap, autoMin, autoMargin);
      }
    } else {
      var overlap := CloseOverlap(top, second, minOverlap, autoMin, autoMargin);
      RivalRanksThird(top, second, overlap, minOverlap, autoMin, autoMargin);
      var pool := [top, second, Rival(top, second, overlap)];
      assert OrZero(pool[2].overlap) == overlap;
      assert !ClearOfAll(pool, autoMargin);
    }
  }

  lemma {:induction false} CloseOverlap(top: Candidate, second: Candidate,
                                        minOverlap: real, autoMin: real, autoMargin: real)
    returns (overlap: real)
    requires autoMargin > 0.0 && Confirms([top, second], top, second, minOverlap, autoMin, autoMargin)
    requires Passes(second, minOverlap) || !ClearsThreshold(top, minOverlap, autoMargin)
    ensures ShareOfTerms(overlap) && OrZero(top.overlap) - overlap < autoMargin
    ensures overlap >= minOverlap ==> Passes(second, minOverlap)
  {
    if Passes(second, minOverlap) {
      assert Validated([top, second][0]);
      overlap := OrZero(top.overlap);
    } else {
      var n: nat :| n <= 100 && GridPoint(n, Two) < minOverlap
                    && OrZero(top.overlap) - GridPoint(n, Two) < autoMargin;
      overlap := GridPoint(n, Two);
    }
  }
}
