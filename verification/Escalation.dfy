/** Writing the report under an output cap (`silk_ai_judge.py`, end of
    `deep_report`): each truncated attempt is retried with twice the cap. */
module Escalation {
  import opened Common
  import opened Wrappers

  /** What one model call gives: its text, and whether it stopped at the cap. */
  datatype Attempt = Attempt(text: string, truncated: bool)

  /** The cap of attempt `k`. */
  function Cap(base: nat, ceiling: nat, k: nat): nat {
    if k == 0 then base else Min(2 * Cap(base, ceiling, k - 1), ceiling)
  }

  /** The last attempt made, starting from attempt `k`. */
  function LastFrom(base: nat, ceiling: nat, retries: nat, script: nat -> Attempt, k: nat): (last: nat)
    requires k <= retries
    ensures k <= last <= retries
    decreases retries - k
  {
    if !script(k).truncated || Cap(base, ceiling, k) >= ceiling || k == retries then k
    else LastFrom(base, ceiling, retries, script, k + 1)
  }

  function Last(base: nat, ceiling: nat, retries: nat, script: nat -> Attempt): nat {
    LastFrom(base, ceiling, retries, script, 0)
  }

  /** The run ends truncated at the hard ceiling. */
  predicate Flagged(base: nat, ceiling: nat, retries: nat, script: nat -> Attempt) {
    var last := Last(base, ceiling, retries, script);
    script(last).truncated && Cap(base, ceiling, last) >= ceiling
  }

  /** Which of the first `n` attempts is kept: the first longest one with text. */
  function KeptAt(script: nat -> Attempt, n: nat): (kept: Option<nat>)
    ensures kept.Some? ==> kept.value < n && script(kept.value).text != ""
  {
    if n == 0 then None
    else
      var prev := KeptAt(script, n - 1);
      var best := if prev.Some? then script(prev.value).text else "";
      if |script(n - 1).text| > |best| then Some(n - 1) else prev
  }

  function TextAt(script: nat -> Attempt, kept: Option<nat>): string {
    if kept.Some? then script(kept.value).text else ""
  }

  /** The caps of the first `n` attempts. */
  function Caps(base: nat, ceiling: nat, n: nat): seq<nat> {
    if n == 0 then [] else Caps(base, ceiling, n - 1) + [Cap(base, ceiling, n - 1)]
  }

  /** The escalation loop as the source runs it. */
  method Escalate(base: nat, ceiling: nat, retries: int, script: nat -> Attempt)
    returns (best: string, truncated: bool, caps: seq<nat>)
    ensures retries < 0 ==> best == "" && !truncated && caps == []
    ensures retries >= 0 ==>
      var last := Last(base, ceiling, retries, script);
      && caps == Caps(base, ceiling, last + 1)
      && best == TextAt(script, KeptAt(script, last + 1))
      && truncated == Flagged(base, ceiling, retries, script)
  {
    var effectiveMax := base;
    best, truncated, caps := "", false, [];
    var calls: nat := if retries < 0 then 0 else retries + 1;
    for attempt := 0 to calls
      invariant !truncated
      invariant effectiveMax == Cap(base, ceiling, attempt) && caps == Caps(base, ceiling, attempt)
      invariant best == TextAt(script, KeptAt(script, attempt))
      invariant retries >= 0 && attempt <= retries ==>
        Last(base, ceiling, retries, script) == LastFrom(base, ceiling, retries, script, attempt)
      invariant retries >= 0 && attempt == retries + 1 ==>
        Last(base, ceiling, retries, script) == retries && !Flagged(base, ceiling, retries, script)
    {
      caps := caps + [effectiveMax];
      var out := script(attempt);
      if out.text != "" && |out.text| > |best| { best := out.text; }
      if !out.truncated { break; }
      if effectiveMax >= ceiling {
        truncated := true;
        break;
      }
      effectiveMax := Min(effectiveMax * 2, ceiling);
    }
  }

  // ------------------------------------------------------------- the caps

  lemma {:induction false} LastIsReached(base: nat, ceiling: nat, retries: nat, script: nat -> Attempt, k: nat)
    requires k <= retries
    ensures var last := LastFrom(base, ceiling, retries, script, k);
            && (forall j | k <= j < last :: script(j).truncated && Cap(base, ceiling, j) < ceiling)
            && (!script(last).truncated || Cap(base, ceiling, last) >= ceiling || last == retries)
    decreases retries - k
  {
    if script(k).truncated && Cap(base, ceiling, k) < ceiling && k < retries {
      LastIsReached(base, ceiling, retries, script, k + 1);
    }
  }

  lemma {:induction false} CapsAt(base: nat, ceiling: nat, n: nat, k: nat)
    requires k < n
    ensures |Caps(base, ceiling, n)| == n && Caps(base, ceiling, n)[k] == Cap(base, ceiling, k)
  {
    if n > 1 { CapsAt(base, ceiling, n - 1, if k < n - 1 then k else 0); }
  }

  /** The first attempt runs at the base cap and every later one at the base times two to
      the attempt, cut at the ceiling. */
  lemma {:induction false} CapIs(base: nat, ceiling: nat, k: nat)
    ensures Cap(base, ceiling, k) == if k == 0 then base else Min(base * Pow2(k), ceiling)
  {
    if k > 0 {
      CapIs(base, ceiling, k - 1);
      TimesDouble(base, Pow2(k - 1));
      assert Pow2(k) == 2 * Pow2(k - 1);
    }
  }

  /** The caps that a run uses: one an attempt, doubled from the base, cut at the ceiling;
      every attempt but the last stayed below the ceiling. */
  lemma {:induction false} CapsOfARun(base: nat, ceiling: nat, retries: nat, script: nat -> Attempt, k: nat)
    requires k <= Last(base, ceiling, retries, script)
    ensures var caps := Caps(base, ceiling, Last(base, ceiling, retries, script) + 1);
            && |caps| == Last(base, ceiling, retries, script) + 1
            && caps[k] == (if k == 0 then base else Min(base * Pow2(k), ceiling))
            && (k + 1 < |caps| ==> caps[k] < ceiling && caps[k] <= caps[k + 1])
  {
    var last := Last(base, ceiling, retries, script);
    LastIsReached(base, ceiling, retries, script, 0);
    CapsAt(base, ceiling, last + 1, k);
    CapIs(base, ceiling, k);
    if k < last { CapsAt(base, ceiling, last + 1, k + 1); }
  }

  /** Doubling reaches the ceiling at attempt `k` exactly when base times two to
      the `k` does. */
  lemma {:induction false} CapReaches(base: nat, ceiling: nat, k: nat)
    ensures if base * Pow2(k) >= ceiling then Cap(base, ceiling, k) >= ceiling
            else Cap(base, ceiling, k) == base * Pow2(k)
  {
    CapIs(base, ceiling, k);
  }

  lemma {:induction false} TimesDouble(a: nat, b: nat)
    ensures a * (2 * b) == 2 * (a * b)
  {}

  // -------------------------------------- when truncation cannot go unnoticed

  /** A run that ends truncated is always flagged, whatever the model does, if
      and only if the retries suffice to double the base up to the ceiling. */
  lemma {:induction false} NoSilentTruncationExactly(base: nat, ceiling: nat, retries: nat)
    ensures (forall script: nat -> Attempt ::
               script(Last(base, ceiling, retries, script)).truncated ==> Flagged(base, ceiling, retries, script))
            <==> base * Pow2(retries) >= ceiling
  {
    CapReaches(base, ceiling, retries);
    if base * Pow2(retries) >= ceiling {
      forall script: nat -> Attempt | script(Last(base, ceiling, retries, script)).truncated
        ensures Flagged(base, ceiling, retries, script)
      {
        LastIsReached(base, ceiling, retries, script, 0);
      }
    } else {
      var always: nat -> Attempt := k => Attempt("x", true);
      LastIsReached(base, ceiling, retries, always, 0);
      var last := Last(base, ceiling, retries, always);
      CapsBelow(base, ceiling, last, retries);
      assert !Flagged(base, ceiling, retries, always);
    }
  }

  lemma {:induction false} CapsBelow(base: nat, ceiling: nat, k: nat, n: nat)
    requires k <= n && base * Pow2(n) < ceiling
    ensures Cap(base, ceiling, k) < ceiling
    decreases n - k
  {
    if k == n {
      CapReaches(base, ceiling, k);
    } else {
      CapsBelow(base, ceiling, k + 1, n);
    }
  }

  // --------------------------------------------------------- what is shipped

  lemma {:induction false} KeptIsLongest(script: nat -> Attempt, n: nat)
    ensures forall j | 0 <= j < n :: |script(j).text| <= |TextAt(script, KeptAt(script, n))|
    ensures KeptAt(script, n).Some? ==>
      forall j | 0 <= j < KeptAt(script, n).value :: |script(j).text| < |TextAt(script, KeptAt(script, n))|
  {
    if n > 0 { KeptIsLongest(script, n - 1); }
  }

  /** The finished text of an unflagged run is kept exactly when it is strictly
      longer than every truncated text before it. */
  lemma {:induction false} FinishedTextKeptExactly(base: nat, ceiling: nat, retries: nat, script: nat -> Attempt)
    ensures var last := Last(base, ceiling, retries, script);
            KeptAt(script, last + 1) == Some(last)
            <==> script(last).text != "" && forall j | 0 <= j < last :: |script(j).text| < |script(last).text|
  {
    var last := Last(base, ceiling, retries, script);
    KeptIsLongest(script, last + 1);
    KeptIsLongest(script, last);
  }

  datatype Section =
    | ExecutiveSummary | Methodology | MarketOverview | Dynamics | Consumers | Competition
    | Regulation | Logistics | Risks | Recommendations | Appendices

  const REPORT_SECTIONS := [
    ExecutiveSummary, Methodology, MarketOverview, Dynamics, Consumers, Competition,
    Regulation, Logistics, Risks, Recommendations, Appendices]

  /** A numbered heading: one of the eleven sections, or some other title. */
  datatype Heading = Named(section: Section) | Other(title: string)

  predicate Blank(c: char) {
    c == ' ' || c == '\n' || c == '\t' || c == '\r'
  }

  function TrimRight(text: string): string {
    if text != "" && Blank(text[|text| - 1]) then TrimRight(text[..|text| - 1]) else text
  }

  const TERMINALS := ".\U{061F}!:|)\U{300B}\U{201D}\""

  predicate Incomplete(text: string, headings: string -> seq<Heading>) {
    var body := TrimRight(text);
    || body == ""
    || (exists s | s in REPORT_SECTIONS :: Named(s) !in headings(body))
    || body[|body| - 1] !in TERMINALS
  }

  /** The end of `deep_report`: a flagged text is continued once and then shipped
      only if complete; any other text is shipped as it is. */
  function Shipped(base: nat, ceiling: nat, retries: nat, script: nat -> Attempt,
                   continued: string, headings: string -> seq<Heading>): Option<string>
  {
    var best := TextAt(script, KeptAt(script, Last(base, ceiling, retries, script) + 1));
    if best != "" && Flagged(base, ceiling, retries, script) then
      var merged := if |continued| > |best| then continued else best;
      if Incomplete(merged, headings) then None else Some(merged)
    else if best == "" then None
    else Some(best)
  }

  /** The text shipped was not cut by the cap, or was checked to be complete. */
  ghost predicate Safe(base: nat, ceiling: nat, retries: nat, script: nat -> Attempt,
                       continued: string, headings: string -> seq<Heading>)
  {
    var shipped := Shipped(base, ceiling, retries, script, continued, headings);
    var kept := KeptAt(script, Last(base, ceiling, retries, script) + 1);
    shipped.Some? && !(Flagged(base, ceiling, retries, script) && !Incomplete(shipped.value, headings)) ==>
      !script(kept.value).truncated
  }

  /** No partial text is shipped unchecked, exactly when the run is flagged, has
      no text, or ends with a finished text longer than all before it. */
  lemma {:induction false} SafeExactly(base: nat, ceiling: nat, retries: nat, script: nat -> Attempt,
                    continued: string, headings: string -> seq<Heading>)
    ensures var last := Last(base, ceiling, retries, script);
            Safe(base, ceiling, retries, script, continued, headings)
            <==> (|| Flagged(base, ceiling, retries, script)
                  || KeptAt(script, last + 1) == None
                  || (!script(last).truncated && KeptAt(script, last + 1) == Some(last)))
  {
    LastIsReached(base, ceiling, retries, script, 0);
  }

  /** Settings under which no run at all ships a partial text unchecked are exactly
      those that never escalate: the first attempt already has the whole ceiling. */
  lemma {:induction false} SafeSettingsExactly(base: nat, ceiling: nat, retries: nat)
    ensures (forall script: nat -> Attempt, continued: string, headings: string -> seq<Heading> ::
               Safe(base, ceiling, retries, script, continued, headings))
            <==> base >= ceiling
  {
    if base >= ceiling {
      forall script: nat -> Attempt, continued: string, headings: string -> seq<Heading>
        ensures Safe(base, ceiling, retries, script, continued, headings)
      {
        SafeExactly(base, ceiling, retries, script, continued, headings);
        assert Last(base, ceiling, retries, script) == 0;
        assert KeptAt(script, 0) == None;
      }
    } else {
      var script: nat -> Attempt := k => if k == 0 then Attempt("ab", true) else Attempt("c", false);
      var headings: string -> seq<Heading> := _ => [];
      UnsafeRun(base, ceiling, retries, script, headings);
    }
  }

  lemma {:induction false} KeptFirst(script: nat -> Attempt)
    requires script(0).text != ""
    ensures KeptAt(script, 1) == Some(0)
  {
    assert KeptAt(script, 0) == None;
  }

  lemma {:induction false} KeptDespite(script: nat -> Attempt, n: nat)
    requires KeptAt(script, n).Some? && |script(n).text| <= |TextAt(script, KeptAt(script, n))|
    ensures KeptAt(script, n + 1) == KeptAt(script, n)
  {}

  lemma {:induction false} UnsafeRun(base: nat, ceiling: nat, retries: nat, script: nat -> Attempt,
                                     headings: string -> seq<Heading>)
    requires base < ceiling && script(0) == Attempt("ab", true) && (retries > 0 ==> script(1) == Attempt("c", false))
    ensures !Safe(base, ceiling, retries, script, "", headings)
  {
    SafeExactly(base, ceiling, retries, script, "", headings);
    assert Cap(base, ceiling, 0) < ceiling;
    assert retries > 0 ==> LastFrom(base, ceiling, retries, script, 1) == 1;
    KeptFirst(script);
    if retries > 0 { KeptDespite(script, 1); }
  }

  /** With the default settings an escalated attempt that finishes with fewer
      characters loses to the truncated text before it, which ships unchecked. */
  lemma {:induction false} ShorterFinishIsDropped(headings: string -> seq<Heading>, continued: string)
    ensures exists script: nat -> Attempt ::
      && !script(1).truncated && script(0).truncated
      && Last(16000, 32000, 3, script) == 1
      && Shipped(16000, 32000, 3, script, continued, headings) == Some(script(0).text)
      && script(0).text != script(1).text
  {
    var script: nat -> Attempt := k => if k == 0 then Attempt("a long but cut", true) else Attempt("done.", false);
    assert Cap(16000, 32000, 0) == 16000;
    assert LastFrom(16000, 32000, 3, script, 1) == 1;
    assert LastFrom(16000, 32000, 3, script, 0) == LastFrom(16000, 32000, 3, script, 1);
    assert Last(16000, 32000, 3, script) == 1;
    assert KeptAt(script, 1) == Some(0);
    assert KeptAt(script, 2) == Some(0);
  }

  // ------------------------------------------------------ order of sections

  function Known(headings: seq<Heading>): seq<Section> {
    if headings == [] then []
    else (if headings[0].Named? then [headings[0].section] else []) + Known(headings[1..])
  }

  /** The sections of `order` that are (`want`) or are not in `present`. */
  function Those(order: seq<Section>, present: seq<Section>, want: bool): seq<Section> {
    if order == [] then []
    else (if (order[0] in present) == want then [order[0]] else []) + Those(order[1..], present, want)
  }

  predicate OrderIssues(headings: seq<Heading>) {
    var present := Known(headings);
    Those(REPORT_SECTIONS, present, false) != [] || present != Those(REPORT_SECTIONS, present, true)
  }

  lemma {:induction false} NoneMissing(order: seq<Section>, present: seq<Section>)
    ensures Those(order, present, false) == [] <==> forall s | s in order :: s in present
    ensures Those(order, present, false) == [] ==> Those(order, present, true) == order
  {
    if order != [] {
      NoneMissing(order[1..], present);
      assert order == [order[0]] + order[1..];
    }
  }

  /** A draft passes the order check exactly when its known headings are the
      eleven sections in order, each once. */
  lemma {:induction false} OrderExactly(headings: seq<Heading>)
    ensures !OrderIssues(headings) <==> Known(headings) == REPORT_SECTIONS
  {
    NoneMissing(REPORT_SECTIONS, Known(headings));
  }

  lemma {:induction false} KnownAre(headings: seq<Heading>)
    ensures forall s :: s in Known(headings) <==> Named(s) in headings
  {
    if headings != [] {
      KnownAre(headings[1..]);
      assert headings == [headings[0]] + headings[1..];
    }
  }

  /** A text shipped after truncation carries all eleven sections and ends on a
      terminal mark; the order check can then only fault order or repetition. */
  lemma {:induction false} FlaggedShipsComplete(base: nat, ceiling: nat, retries: nat, script: nat -> Attempt,
                             continued: string, headings: string -> seq<Heading>)
    requires Flagged(base, ceiling, retries, script)
    requires Shipped(base, ceiling, retries, script, continued, headings).Some?
    ensures var body := TrimRight(Shipped(base, ceiling, retries, script, continued, headings).value);
            && body != "" && body[|body| - 1] in TERMINALS
            && (forall s | s in REPORT_SECTIONS :: s in Known(headings(body)))
            && Those(REPORT_SECTIONS, Known(headings(body)), false) == []
  {
    var body := TrimRight(Shipped(base, ceiling, retries, script, continued, headings).value);
    KnownAre(headings(body));
    NoneMissing(REPORT_SECTIONS, Known(headings(body)));
  }

  /** Nothing but blanks follows `body` in `text`, and `body` does not end on one. */
  ghost predicate IsBody(body: string, text: string) {
    && body <= text
    && (forall i | |body| <= i < |text| :: text[i] in " \n\t\r")
    && (body != "" ==> body[|body| - 1] !in " \n\t\r")
  }

  lemma {:induction false} TrimRightIs(text: string, body: string)
    ensures IsBody(body, text) <==> body == TrimRight(text)
  {
    if text != "" && Blank(text[|text| - 1]) {
      TrimRightIs(text[..|text| - 1], body);
    }
  }

  /** All eleven sections are headed, and the body ends on a terminal mark. */
  predicate CompleteBody(body: string, headings: seq<Heading>) {
    body != "" && body[|body| - 1] in TERMINALS && forall s | s in REPORT_SECTIONS :: s in Known(headings)
  }

  ghost predicate Complete(text: string, headings: string -> seq<Heading>) {
    exists body :: IsBody(body, text) && CompleteBody(body, headings(body))
  }

  lemma {:induction false} IncompleteIs(text: string, headings: string -> seq<Heading>)
    ensures Incomplete(text, headings) <==> !CompleteBody(TrimRight(text), headings(TrimRight(text)))
  {
    KnownAre(headings(TrimRight(text)));
  }

  lemma {:induction false} CompleteExactly(text: string, headings: string -> seq<Heading>)
    ensures Complete(text, headings) <==> !Incomplete(text, headings)
  {
    IncompleteIs(text, headings);
    TrimRightIs(text, TrimRight(text));
    if body :| IsBody(body, text) && CompleteBody(body, headings(body)) { TrimRightIs(text, body); }
  }

  /** The longer of two texts, the first when they are of one length. */
  predicate Longer(s: string, first: string, second: string) {
    s in [first, second] && |s| >= |first| && |s| >= |second| && (|first| == |second| ==> s == first)
  }

  /** A text is shipped if and only if it is the kept one of an unflagged run, or, where
      the run is flagged, the longer of the kept one and its continuation, and complete. */
  lemma {:induction false} ShippedExactly(base: nat, ceiling: nat, retries: nat, script: nat -> Attempt,
                                          continued: string, headings: string -> seq<Heading>, s: string)
    ensures var kept := TextAt(script, KeptAt(script, Last(base, ceiling, retries, script) + 1));
            Shipped(base, ceiling, retries, script, continued, headings) == Some(s)
            <==> && kept != ""
                 && if Flagged(base, ceiling, retries, script) then Longer(s, kept, continued) && Complete(s, headings)
                    else s == kept
  {
    var kept := TextAt(script, KeptAt(script, Last(base, ceiling, retries, script) + 1));
    CompleteExactly(s, headings);
  }
}
