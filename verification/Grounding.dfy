/** Which numbers of a report are traceable (`silk_evals.py`).

    A number is known when some mission cites it. One left-to-right pass over the
    report's equations adds the results of checked equations that rest on a known
    number, and the operands those equations declare as assumptions. */
module Grounding {
  import opened Wrappers

  datatype Op = Times | Divide | Plus | Minus

  /** One operand: its literal, whether a percent sign follows, and whether the
      text around it declares an assumption. */
  datatype Operand = Operand(literal: real, percent: bool, assumed: bool)
  datatype Equation = Equation(a: Operand, op: Op, b: Operand, c: real, cPercent: bool)

  function Scale(literal: real, percent: bool): real {
    if percent then literal / 100.0 else literal
  }

  function Abs(x: real): real {
    if x < 0.0 then -x else x
  }

  /** `_num_close`: three percent of the expected value, but never less than one. */
  predicate Close(actual: real, expected: real) {
    var slack := Abs(expected) * 0.03;
    Abs(actual - expected) <= if slack > 1.0 then slack else 1.0
  }

  /** `_apply_op`: nothing comes of a division by zero. */
  function ApplyOp(a: real, op: Op, b: real): Option<real> {
    match op
    case Times => Some(a * b)
    case Divide => if b != 0.0 then Some(a / b) else None
    case Plus => Some(a + b)
    case Minus => Some(a - b)
  }

  predicate Checks(e: Equation) {
    var expected := ApplyOp(Scale(e.a.literal, e.a.percent), e.op, Scale(e.b.literal, e.b.percent));
    expected.Some? && Close(Scale(e.c, e.cPercent), expected.value)
  }

  datatype State = State(grounded: set<real>, rooted: set<real>)

  predicate Anchored(x: Operand, known: set<real>, s: State) {
    x.literal in known || x.literal in s.rooted
  }

  predicate Supported(x: Operand, known: set<real>, s: State) {
    Anchored(x, known, s) || x.literal in s.grounded || x.assumed
  }

  predicate Fires(e: Equation, known: set<real>, s: State) {
    && Checks(e)
    && Supported(e.a, known, s) && Supported(e.b, known, s)
    && (Anchored(e.a, known, s) || Anchored(e.b, known, s))
  }

  function Declared(x: Operand, known: set<real>, s: State): set<real> {
    if x.assumed && !Anchored(x, known, s) then {x.literal} else {}
  }

  function Step(e: Equation, known: set<real>, s: State): State {
    if Fires(e, known, s) then
      State(s.grounded + {e.c} + Declared(e.a, known, s) + Declared(e.b, known, s), s.rooted + {e.c})
    else s
  }

  /** The state after the first `n` equations. */
  function Run(eqs: seq<Equation>, n: nat, known: set<real>): State
    requires n <= |eqs|
  {
    if n == 0 then State({}, {}) else Step(eqs[n - 1], known, Run(eqs, n - 1, known))
  }

  function Grounded(eqs: seq<Equation>, known: set<real>): set<real> {
    Run(eqs, |eqs|, known).grounded
  }

  /** The pass as the source runs it, two sets growing in a loop. */
  method FormulaGroundedNumbers(eqs: seq<Equation>, known: set<real>) returns (grounded: set<real>)
    ensures grounded == Grounded(eqs, known)
  {
    grounded := {};
    var rooted: set<real> := {};
    for i := 0 to |eqs|
      invariant State(grounded, rooted) == Run(eqs, i, known)
    {
      var e := eqs[i];
      ghost var s := State(grounded, rooted);
      if Checks(e) {
        var aKnown := e.a.literal in known || e.a.literal in rooted;
        var bKnown := e.b.literal in known || e.b.literal in rooted;
        var aOk := aKnown || e.a.literal in grounded || e.a.assumed;
        var bOk := bKnown || e.b.literal in grounded || e.b.assumed;
        if aOk && bOk && (aKnown || bKnown) {
          grounded := grounded + {e.c};
          rooted := rooted + {e.c};
          if e.a.assumed && !aKnown { grounded := grounded + {e.a.literal}; }
          if e.b.assumed && !bKnown { grounded := grounded + {e.b.literal}; }
        }
      }
      assert State(grounded, rooted).grounded == Step(e, known, s).grounded;
    }
  }

  // ------------------------------- what a checked equation says, by itself

  /** The value a literal stands for: a percentage is a hundredth of it. */
  predicate Reads(literal: real, percent: bool, value: real) {
    literal == if percent then 100.0 * value else value
  }

  /** `x` is the outcome of the operation; division is read backwards. */
  predicate Yields(op: Op, a: real, b: real, x: real) {
    match op
    case Times => x == a * b
    case Divide => b != 0.0 && x * b == a
    case Plus => x == a + b
    case Minus => x + b == a
  }

  /** `c` is at most one away from `x`, or lies between 97 and 103 percent of it. */
  predicate Rounds(c: real, x: real) {
    || x - 1.0 <= c <= x + 1.0
    || 0.97 * x <= c <= 1.03 * x
    || 1.03 * x <= c <= 0.97 * x
  }

  /** The written result rounds the outcome of the operation on what is written. */
  ghost predicate Holds(e: Equation) {
    exists a, b, c, x ::
      && Reads(e.a.literal, e.a.percent, a) && Reads(e.b.literal, e.b.percent, b) && Reads(e.c, e.cPercent, c)
      && Yields(e.op, a, b, x) && Rounds(c, x)
  }

  lemma {:induction false} ScaleReads(literal: real, percent: bool, value: real)
    ensures Reads(literal, percent, value) <==> value == Scale(literal, percent)
  {}

  lemma {:induction false} CloseRounds(c: real, x: real)
    ensures Close(c, x) <==> Rounds(c, x)
  {}

  lemma {:induction false} QuotientIs(a: real, b: real, x: real)
    requires b != 0.0
    ensures x * b == a <==> x == a / b
  {}

  lemma {:induction false} OutcomeYields(op: Op, a: real, b: real, x: real)
    ensures ApplyOp(a, op, b) == Some(x) <==> Yields(op, a, b, x)
  {
    if op.Divide? && b != 0.0 { QuotientIs(a, b, x); }
  }

  /** Read off from any values that the literals stand for. */
  lemma {:induction false} ChecksWhenHolds(e: Equation, a: real, b: real, c: real, x: real)
    requires Reads(e.a.literal, e.a.percent, a) && Reads(e.b.literal, e.b.percent, b) && Reads(e.c, e.cPercent, c)
    requires Yields(e.op, a, b, x)
    ensures Checks(e) <==> Rounds(c, x)
  {
    ScaleReads(e.a.literal, e.a.percent, a);
    ScaleReads(e.b.literal, e.b.percent, b);
    ScaleReads(e.c, e.cPercent, c);
    OutcomeYields(e.op, a, b, x);
    CloseRounds(c, x);
  }

  lemma {:induction false} OutcomeOf(e: Equation, a: real, b: real, c: real) returns (x: real)
    requires Checks(e)
    requires Reads(e.a.literal, e.a.percent, a) && Reads(e.b.literal, e.b.percent, b) && Reads(e.c, e.cPercent, c)
    ensures Yields(e.op, a, b, x) && Rounds(c, x)
  {
    ScaleReads(e.a.literal, e.a.percent, a);
    ScaleReads(e.b.literal, e.b.percent, b);
    ScaleReads(e.c, e.cPercent, c);
    x := ApplyOp(a, e.op, b).value;
    OutcomeYields(e.op, a, b, x);
    CloseRounds(c, x);
  }

  /** The arithmetic that the pass does is that of the four operations. */
  lemma {:induction false} ChecksExactly(e: Equation)
    ensures Checks(e) <==> Holds(e)
  {
    var a, b, c := Scale(e.a.literal, e.a.percent), Scale(e.b.literal, e.b.percent), Scale(e.c, e.cPercent);
    ScaleReads(e.a.literal, e.a.percent, a);
    ScaleReads(e.b.literal, e.b.percent, b);
    ScaleReads(e.c, e.cPercent, c);
    if Checks(e) { var x := OutcomeOf(e, a, b, c); }
    if a, b, c, x :|
      && Reads(e.a.literal, e.a.percent, a) && Reads(e.b.literal, e.b.percent, b) && Reads(e.c, e.cPercent, c)
      && Yields(e.op, a, b, x) && Rounds(c, x)
    {
      ChecksWhenHolds(e, a, b, c, x);
    }
  }

  /** Between two cited numbers, whatever the operation and the percent signs, the
      written result is grounded exactly when it rounds the outcome. */
  lemma {:induction false} ResultGroundedExactly(e: Equation, known: set<real>, a: real, b: real, c: real)
    requires e.a.literal in known && e.b.literal in known
    requires Reads(e.a.literal, e.a.percent, a) && Reads(e.b.literal, e.b.percent, b) && Reads(e.c, e.cPercent, c)
    ensures e.c in Grounded([e], known) <==> exists x :: Yields(e.op, a, b, x) && Rounds(c, x)
  {
    assert Run([e], 1, known) == Step(e, known, Run([e], 0, known));
    ChecksExactly(e);
    if x :| Yields(e.op, a, b, x) && Rounds(c, x) { ChecksWhenHolds(e, a, b, c, x); }
    if Checks(e) { var x := OutcomeOf(e, a, b, c); }
  }

  // ------------------------------------------------------ derivation trees

  datatype Side = Left | Right

  /** Why an operand may be used. */
  datatype Support = Root(tree: Tree) | Nearby | DeclaredBy(tree: Tree, side: Side)

  /** Where a number comes from: a citation, or equation `i` with its operands. */
  datatype Tree = Cited(number: real) | Derived(i: nat, left: Support, right: Support)

  function Side'(e: Equation, side: Side): Operand {
    if side.Left? then e.a else e.b
  }

  function Number(t: Tree, eqs: seq<Equation>): real
    requires t.Derived? ==> t.i < |eqs|
  {
    match t
    case Cited(x) => x
    case Derived(i, _, _) => eqs[i].c
  }

  /** A finite tree whose equations all check, each using only what stands
      earlier in the text, with a traceable operand at every node. */
  ghost predicate Valid(t: Tree, eqs: seq<Equation>, before: nat, known: set<real>)
    requires before <= |eqs|
    decreases t
  {
    match t
    case Cited(x) => x in known
    case Derived(i, left, right) =>
      && i < before && Holds(eqs[i])
      && Justifies(left, eqs[i].a, eqs, i, known)
      && Justifies(right, eqs[i].b, eqs, i, known)
      && (left.Root? || right.Root?)
  }

  ghost predicate Justifies(s: Support, x: Operand, eqs: seq<Equation>, before: nat, known: set<real>)
    requires before <= |eqs|
    decreases s
  {
    match s
    case Nearby => x.assumed
    case Root(t) => Valid(t, eqs, before, known) && Number(t, eqs) == x.literal
    case DeclaredBy(t, side) =>
      && Valid(t, eqs, before, known) && t.Derived?
      && Side'(eqs[t.i], side).assumed && Side'(eqs[t.i], side).literal == x.literal
  }

  ghost predicate HasEquationTree(x: real, eqs: seq<Equation>, before: nat, known: set<real>)
    requires before <= |eqs|
  {
    exists t: Tree :: t.Derived? && Valid(t, eqs, before, known) && Number(t, eqs) == x
  }

  ghost predicate HasTree(x: real, eqs: seq<Equation>, before: nat, known: set<real>)
    requires before <= |eqs|
  {
    exists t: Tree :: Valid(t, eqs, before, known) && Number(t, eqs) == x
  }

  ghost predicate IsDeclared(x: real, eqs: seq<Equation>, before: nat, known: set<real>)
    requires before <= |eqs|
  {
    exists t: Tree, side ::
      Valid(t, eqs, before, known) && t.Derived? && Side'(eqs[t.i], side).assumed && Side'(eqs[t.i], side).literal == x
  }

  lemma {:induction false} ValidLater(t: Tree, eqs: seq<Equation>, n: nat, m: nat, known: set<real>)
    requires n <= m <= |eqs| && Valid(t, eqs, n, known)
    ensures Valid(t, eqs, m, known)
  {}

  lemma {:induction false} RunGrows(eqs: seq<Equation>, n: nat, m: nat, known: set<real>)
    requires n <= m <= |eqs|
    ensures Run(eqs, n, known).grounded <= Run(eqs, m, known).grounded
    ensures Run(eqs, n, known).rooted <= Run(eqs, m, known).rooted
    decreases m
  {
    if n < m { RunGrows(eqs, n, m - 1, known); }
  }

  lemma {:induction false} RootedAreGrounded(eqs: seq<Equation>, n: nat, known: set<real>)
    requires n <= |eqs|
    ensures Run(eqs, n, known).rooted <= Run(eqs, n, known).grounded
  {
    if n > 0 { RootedAreGrounded(eqs, n - 1, known); }
  }

  /** Every tree is found by the pass: its equation fires when reached. */
  lemma {:induction false} TreeFires(t: Tree, eqs: seq<Equation>, before: nat, known: set<real>)
    requires before <= |eqs| && Valid(t, eqs, before, known) && t.Derived?
    ensures Fires(eqs[t.i], known, Run(eqs, t.i, known))
    decreases t
  {
    JustifiedIsSupported(t.left, eqs[t.i].a, eqs, t.i, known);
    JustifiedIsSupported(t.right, eqs[t.i].b, eqs, t.i, known);
    ChecksExactly(eqs[t.i]);
  }

  lemma {:induction false} JustifiedIsSupported(s: Support, x: Operand, eqs: seq<Equation>, before: nat,
                                                known: set<real>)
    requires before <= |eqs| && Justifies(s, x, eqs, before, known)
    ensures Supported(x, known, Run(eqs, before, known))
    ensures s.Root? ==> Anchored(x, known, Run(eqs, before, known))
    decreases s
  {
    if !s.Nearby? && s.tree.Derived? {
      var t := s.tree;
      TreeFires(t, eqs, before, known);
      RunGrows(eqs, t.i + 1, before, known);
      RunGrows(eqs, t.i, before, known);
      assert Run(eqs, t.i + 1, known) == Step(eqs[t.i], known, Run(eqs, t.i, known));
    }
  }

  ghost predicate Traced(eqs: seq<Equation>, n: nat, known: set<real>)
    requires n <= |eqs|
  {
    && (forall x | x in Run(eqs, n, known).rooted :: HasEquationTree(x, eqs, n, known))
    && (forall x | x in Run(eqs, n, known).grounded :: HasTree(x, eqs, n, known) || IsDeclared(x, eqs, n, known))
  }

  lemma {:induction false} SupportFor(x: Operand, eqs: seq<Equation>, n: nat, known: set<real>) returns (s: Support)
    requires n <= |eqs| && Traced(eqs, n, known) && Supported(x, known, Run(eqs, n, known))
    ensures Justifies(s, x, eqs, n, known)
    ensures Anchored(x, known, Run(eqs, n, known)) ==> s.Root?
  {
    if x.literal in known {
      s := Root(Cited(x.literal));
    } else if x.literal in Run(eqs, n, known).rooted {
      var t: Tree :| t.Derived? && Valid(t, eqs, n, known) && Number(t, eqs) == x.literal;
      s := Root(t);
    } else if x.assumed {
      s := Nearby;
    } else if HasTree(x.literal, eqs, n, known) {
      var t: Tree :| Valid(t, eqs, n, known) && Number(t, eqs) == x.literal;
      s := Root(t);
    } else {
      var t: Tree, side :| Valid(t, eqs, n, known) && t.Derived?
        && Side'(eqs[t.i], side).assumed && Side'(eqs[t.i], side).literal == x.literal;
      s := DeclaredBy(t, side);
    }
  }

  /** Everything the pass collects has a tree, or is an assumption declared in an
      equation that has one. */
  lemma {:induction false} RunIsTraced(eqs: seq<Equation>, n: nat, known: set<real>)
    requires n <= |eqs|
    ensures Traced(eqs, n, known)
  {
    if n > 0 {
      RunIsTraced(eqs, n - 1, known);
      var s, e := Run(eqs, n - 1, known), eqs[n - 1];
      TracedLater(eqs, n, known);
      ChecksExactly(e);
      if Fires(e, known, s) {
        var left := SupportFor(e.a, eqs, n - 1, known);
        var right := SupportFor(e.b, eqs, n - 1, known);
        var t := Derived(n - 1, left, right);
        assert Valid(t, eqs, n, known) && Number(t, eqs) == e.c;
        assert e.a.assumed ==> Side'(eqs[t.i], Left).literal == e.a.literal;
        assert e.b.assumed ==> Side'(eqs[t.i], Right).literal == e.b.literal;
      }
    }
  }

  lemma {:induction false} TracedLater(eqs: seq<Equation>, n: nat, known: set<real>)
    requires 0 < n <= |eqs| && Traced(eqs, n - 1, known)
    ensures forall x | x in Run(eqs, n - 1, known).rooted :: HasEquationTree(x, eqs, n, known)
    ensures forall x | x in Run(eqs, n - 1, known).grounded :: HasTree(x, eqs, n, known) || IsDeclared(x, eqs, n, known)
  {
    forall x | x in Run(eqs, n - 1, known).rooted
      ensures HasEquationTree(x, eqs, n, known)
    {
      var t: Tree :| t.Derived? && Valid(t, eqs, n - 1, known) && Number(t, eqs) == x;
      ValidLater(t, eqs, n - 1, n, known);
    }
    forall x | x in Run(eqs, n - 1, known).grounded
      ensures HasTree(x, eqs, n, known) || IsDeclared(x, eqs, n, known)
    {
      if HasTree(x, eqs, n - 1, known) {
        var t: Tree :| Valid(t, eqs, n - 1, known) && Number(t, eqs) == x;
        ValidLater(t, eqs, n - 1, n, known);
      } else {
        var t: Tree, side :| Valid(t, eqs, n - 1, known) && t.Derived?
          && Side'(eqs[t.i], side).assumed && Side'(eqs[t.i], side).literal == x;
        ValidLater(t, eqs, n - 1, n, known);
      }
    }
  }

  /** The pass finds exactly what has a derivation: a number is known or rooted
      if and only if it has a tree, and known or grounded if and only if it has
      a tree or is an assumption declared in an equation that has one. */
  lemma {:induction false} GroundedExactly(eqs: seq<Equation>, known: set<real>, x: real)
    ensures x in known || x in Run(eqs, |eqs|, known).rooted <==> HasTree(x, eqs, |eqs|, known)
    ensures x in known || x in Grounded(eqs, known) <==>
            HasTree(x, eqs, |eqs|, known) || IsDeclared(x, eqs, |eqs|, known)
  {
    var n := |eqs|;
    RunIsTraced(eqs, n, known);
    RootedAreGrounded(eqs, n, known);
    if x in known {
      assert Valid(Cited(x), eqs, n, known) && Number(Cited(x), eqs) == x;
    }
    if HasTree(x, eqs, n, known) {
      var t: Tree :| Valid(t, eqs, n, known) && Number(t, eqs) == x;
      JustifiedIsSupported(Root(t), Operand(x, false, false), eqs, n, known);
    }
    if IsDeclared(x, eqs, n, known) {
      var t: Tree, side :| Valid(t, eqs, n, known) && t.Derived?
        && Side'(eqs[t.i], side).assumed && Side'(eqs[t.i], side).literal == x;
      JustifiedIsSupported(DeclaredBy(t, side), Operand(x, false, false), eqs, n, known);
    }
  }

  lemma {:induction false} UnrootedAreNew(eqs: seq<Equation>, n: nat, known: set<real>, x: real)
    requires n <= |eqs| && x in Run(eqs, n, known).grounded && x !in Run(eqs, n, known).rooted
    ensures x !in known
  {
    if n > 0 && x in Run(eqs, n - 1, known).grounded { UnrootedAreNew(eqs, n - 1, known, x); }
  }

  /** What is grounded without being rooted is no citation and no result: it is
      an operand some derived equation declares as an assumption. */
  lemma {:induction false} OnlyAssumptionsAreUnrooted(eqs: seq<Equation>, known: set<real>, x: real)
    requires x in Grounded(eqs, known) && x !in Run(eqs, |eqs|, known).rooted
    ensures x !in known && IsDeclared(x, eqs, |eqs|, known)
  {
    UnrootedAreNew(eqs, |eqs|, known, x);
    GroundedExactly(eqs, known, x);
  }

  // --------------------------------------------------- more evidence, never less

  lemma {:induction false} ValidMoreEvidence(t: Tree, eqs: seq<Equation>, before: nat, known: set<real>,
                                             more: set<real>)
    requires before <= |eqs| && known <= more && Valid(t, eqs, before, known)
    ensures Valid(t, eqs, before, more)
    decreases t
  {
    if t.Derived? {
      if !t.left.Nearby? { ValidMoreEvidence(t.left.tree, eqs, t.i, known, more); }
      if !t.right.Nearby? { ValidMoreEvidence(t.right.tree, eqs, t.i, known, more); }
    }
  }

  /** Two runs: citing more numbers can only enlarge what counts as traceable. */
  lemma {:induction false} MonotoneInEvidence(eqs: seq<Equation>, known: set<real>, more: set<real>)
    requires known <= more
    ensures known + Grounded(eqs, known) <= more + Grounded(eqs, more)
  {
    var n := |eqs|;
    forall x | x in known + Grounded(eqs, known) ensures x in more + Grounded(eqs, more) {
      GroundedExactly(eqs, known, x);
      GroundedExactly(eqs, more, x);
      if HasTree(x, eqs, n, known) {
        var t: Tree :| Valid(t, eqs, n, known) && Number(t, eqs) == x;
        ValidMoreEvidence(t, eqs, n, known, more);
      } else {
        var t: Tree, side :| Valid(t, eqs, n, known) && t.Derived?
          && Side'(eqs[t.i], side).assumed && Side'(eqs[t.i], side).literal == x;
        ValidMoreEvidence(t, eqs, n, known, more);
      }
    }
  }

  function Violations(numbers: seq<real>, eqs: seq<Equation>, known: set<real>): set<real> {
    set x | x in numbers && x !in known + Grounded(eqs, known)
  }

  function Score(numbers: seq<real>, eqs: seq<Equation>, known: set<real>): int {
    if Violations(numbers, eqs, known) != {} then 0 else 100
  }

  /** A report that scores 100 still does after more findings come in. */
  lemma {:induction false} ScoreMonotone(numbers: seq<real>, eqs: seq<Equation>, known: set<real>, more: set<real>)
    requires known <= more
    ensures Violations(numbers, eqs, more) <= Violations(numbers, eqs, known)
    ensures Score(numbers, eqs, known) <= Score(numbers, eqs, more)
  {
    MonotoneInEvidence(eqs, known, more);
  }

  /** A report scores 100 exactly when each of its numbers is traceable, and else nothing. */
  lemma {:induction false} ScoreExact(numbers: seq<real>, eqs: seq<Equation>, known: set<real>)
    ensures Score(numbers, eqs, known) == 100 <==>
            forall x | x in numbers :: HasTree(x, eqs, |eqs|, known) || IsDeclared(x, eqs, |eqs|, known)
    ensures Score(numbers, eqs, known) != 100 ==> Score(numbers, eqs, known) == 0
  {
    forall x | x in numbers
      ensures x in Violations(numbers, eqs, known) <==>
              !(HasTree(x, eqs, |eqs|, known) || IsDeclared(x, eqs, |eqs|, known))
    {
      GroundedExactly(eqs, known, x);
    }
    var bad := Violations(numbers, eqs, known);
    if forall x | x in numbers :: x !in bad {
      assert bad <= {};
    }
  }

  /** Nothing comes of nothing: with no cited number at all the pass grounds none. */
  lemma {:induction false} NoEvidenceNoGrounding(eqs: seq<Equation>, n: nat)
    requires n <= |eqs|
    ensures Run(eqs, n, {}) == State({}, {})
  {
    if n > 0 { NoEvidenceNoGrounding(eqs, n - 1); }
  }

  // ------------------------------------------------ what "arithmetically right" means

  predicate WithinThreePercent(actual: real, expected: real) {
    Abs(actual - expected) <= Abs(expected) * 0.03
  }

  /** The check is a three-percent check exactly for expected values of at least
      a hundred thirds in size. */
  lemma {:induction false} ToleranceIsRelativeExactly(expected: real)
    ensures (forall actual: real :: Close(actual, expected) <==> WithinThreePercent(actual, expected))
            <==> Abs(expected) >= 100.0 / 3.0
  {
    if Abs(expected) < 100.0 / 3.0 {
      assert Close(expected + 1.0, expected) && !WithinThreePercent(expected + 1.0, expected);
    }
  }

  /** Below that size wrong sums pass: 0.1 x 0.2 = 0.9 grounds 0.9. */
  lemma {:induction false} SmallNumbersPassUnchecked()
    ensures var e := Equation(Operand(0.1, false, false), Times, Operand(0.2, false, false), 0.9, false);
            Grounded([e], {0.1, 0.2}) == {0.9}
  {
    var e := Equation(Operand(0.1, false, false), Times, Operand(0.2, false, false), 0.9, false);
    assert Run([e], 1, {0.1, 0.2}) == Step(e, {0.1, 0.2}, Run([e], 0, {0.1, 0.2}));
  }
}
