/**
 * The clauses and penalties `add_soft_sequence_constraint` in
 * scripts/run_algorithm.py hands to the constraint solver for one list of
 * Boolean work variables: hard clauses that forbid every maximal run of
 * trues shorter than `hard_min` or longer than `hard_max`, and soft clauses
 * whose fresh penalty literal must be true whenever a run of a penalised
 * length occurs.
 *
 * Variables are numbered; a literal is a variable or its negation, and a
 * clause (`AddBoolOr`) is satisfied when one of its literals holds. The
 * solver's model object is reduced to what the constraint does to it: the
 * clauses added, in order, and the number of variables created.
 */
module SequenceConstraint {

  datatype Literal = Pos(v: nat) | Neg(v: nat)

  type Clause = seq<Literal>

  function Holds(l: Literal, a: nat -> bool): bool
  {
    match l
    case Pos(v) => a(v)
    case Neg(v) => !a(v)
  }

  predicate Satisfied(c: Clause, a: nat -> bool)
  {
    exists i :: 0 <= i < |c| && Holds(c[i], a)
  }

  predicate AllSatisfied(cs: seq<Clause>, a: nat -> bool)
  {
    forall k :: 0 <= k < |cs| ==> Satisfied(cs[k], a)
  }

  /** The values the assignment gives the work variables, position by position. */
  function Values(works: seq<nat>, a: nat -> bool): (w: seq<bool>)
    ensures |w| == |works| && forall i :: 0 <= i < |works| ==> w[i] == a(works[i])
  {
    seq(|works|, i requires 0 <= i < |works| => a(works[i]))
  }

  /**
   * Positions [start, start + length) are all true, and the positions just
   * outside them, where they exist, are false.
   */
  predicate IsolatedRun(w: seq<bool>, start: int, length: int)
  {
    0 <= start && 0 <= length && start + length <= |w| &&
    (forall i :: start <= i < start + length ==> w[i]) &&
    (start > 0 ==> !w[start - 1]) &&
    (start + length < |w| ==> !w[start + length])
  }

  /** A maximal run of trues: an isolated run of at least one position. */
  predicate MaximalRun(w: seq<bool>, start: int, length: int)
  {
    IsolatedRun(w, start, length) && length >= 1
  }

  /** The work variable at position i; spans are only ever taken inside the list. */
  function At(works: seq<nat>, i: int): nat
  {
    if 0 <= i < |works| then works[i] else 0
  }

  /** The left neighbour (if any), the negated span, the right neighbour (if any). */
  function Span(works: seq<nat>, start: nat, length: nat): Clause
  {
    (if start > 0 then [Pos(At(works, start - 1))] else []) +
    seq(length, i => Neg(At(works, start + i))) +
    (if start + length < |works| then [Pos(At(works, start + length))] else [])
  }

  /** `negated_bounded_span(works, start, length)` */
  method NegatedBoundedSpan(works: seq<nat>, start: nat, length: nat) returns (sequence: Clause)
    requires start + length <= |works|
    ensures sequence == Span(works, start, length)
  {
    sequence := [];
    if start > 0 {
      sequence := sequence + [Pos(works[start - 1])];
    }
    ghost var left := sequence;
    var i := 0;
    while i < length
      invariant 0 <= i <= length
      invariant sequence == left + seq(i, k => Neg(At(works, start + k)))
    {
      sequence := sequence + [Neg(works[start + i])];
      assert At(works, start + i) == works[start + i];
      assert seq(i + 1, k => Neg(At(works, start + k))) == seq(i, k => Neg(At(works, start + k))) + [Neg(works[start + i])];
      i := i + 1;
    }
    if start + length < |works| {
      sequence := sequence + [Pos(works[start + length])];
    }
  }

  /** The span clause is false under an assignment exactly when the span is an isolated run of trues. */
  lemma SpanFalse(works: seq<nat>, start: nat, length: nat, a: nat -> bool)
    requires start + length <= |works|
    ensures !Satisfied(Span(works, start, length), a) <==> IsolatedRun(Values(works, a), start, length)
  {
    var c := Span(works, start, length);
    var w := Values(works, a);
    var off := if start > 0 then 1 else 0;
    if IsolatedRun(w, start, length) {
      forall i | 0 <= i < |c|
        ensures !Holds(c[i], a)
      {
        if i >= off && i < off + length {
          assert c[i] == Neg(At(works, start + i - off));
        }
      }
    }
    if !Satisfied(c, a) {
      forall j | start <= j < start + length
        ensures w[j]
      {
        assert c[off + j - start] == Neg(At(works, j));
      }
      if start + length < |works| {
        assert c[|c| - 1] == Pos(works[start + length]);
      }
      if start > 0 {
        assert c[0] == Pos(works[start - 1]);
      }
    }
  }

  // ---------------------------------------------------------------------------
  // The (length, start) pairs the loops visit

  /** `for start in range(n - length + 1)`, as (length, start) pairs. */
  function Starts(length: nat, n: nat): (r: seq<(nat, nat)>)
    ensures |r| == if length <= n then n - length + 1 else 0
  {
    if length > n then [] else seq(n - length + 1, s requires 0 <= s < n - length + 1 => (length, s))
  }

  /** `for length in range(lo, hi): for start in range(n - length + 1)`, in loop order. */
  function Pairs(lo: nat, hi: nat, n: nat): seq<(nat, nat)>
  {
    if hi <= lo then [] else Pairs(lo, hi - 1, n) + Starts(hi - 1, n)
  }

  /** The pairs visited are exactly the spans of a length in [lo, hi) that fit in n positions. */
  lemma {:induction false} PairsMember(lo: nat, hi: nat, n: nat, length: nat, start: nat)
    ensures (length, start) in Pairs(lo, hi, n) <==> lo <= length < hi && length + start <= n
  {
    if hi > lo {
      PairsMember(lo, hi - 1, n, length, start);
      if length == hi - 1 && length + start <= n {
        assert Starts(hi - 1, n)[start] == (length, start);
      }
    }
  }

  /** One span clause per pair. */
  function SpanClauses(works: seq<nat>, ps: seq<(nat, nat)>): (cs: seq<Clause>)
    ensures |cs| == |ps|
  {
    seq(|ps|, k requires 0 <= k < |ps| => Span(works, ps[k].1, ps[k].0))
  }

  /** One span clause per pair, each extended by its own fresh literal first + k. */
  function PenaltyClauses(works: seq<nat>, ps: seq<(nat, nat)>, first: nat): (cs: seq<Clause>)
    ensures |cs| == |ps|
  {
    seq(|ps|, k requires 0 <= k < |ps| => Span(works, ps[k].1, ps[k].0) + [Pos(first + k)])
  }

  /** `[works[i].Not() for i in range(start, start + len)]` */
  function Window(works: seq<nat>, start: nat, len: nat): Clause
  {
    seq(len, i => Neg(At(works, start + i)))
  }

  /** One window of hard_max + 1 negated variables per start that fits. */
  function LongClauses(works: seq<nat>, hardMax: nat): (cs: seq<Clause>)
    ensures |cs| == if hardMax < |works| then |works| - hardMax else 0
  {
    var count := if hardMax < |works| then |works| - hardMax else 0;
    seq(count, s requires 0 <= s < count => Window(works, s, hardMax + 1))
  }

  /** The hard clauses: spans of every length below hard_min, then every window of hard_max + 1. */
  function HardClauses(works: seq<nat>, hardMin: nat, hardMax: nat): seq<Clause>
  {
    SpanClauses(works, Pairs(1, hardMin, |works|)) + LongClauses(works, hardMax)
  }

  /** The pairs a penalty loop over lengths [lo, hi) visits: none unless its cost is positive. */
  function Penalized(n: nat, lo: nat, hi: nat, cost: int): seq<(nat, nat)>
  {
    if cost > 0 then Pairs(lo, hi, n) else []
  }

  /** Every clause the constraint adds, in the order it adds them, its penalty literals numbered from `first`. */
  function SequenceClauses(works: seq<nat>, hardMin: nat, softMin: nat, minCost: int, softMax: nat, hardMax: nat, maxCost: int, first: nat): seq<Clause>
  {
    var n := |works|;
    var under := Penalized(n, hardMin, softMin, minCost);
    SpanClauses(works, Pairs(1, hardMin, n)) +
    PenaltyClauses(works, under, first) +
    PenaltyClauses(works, Penalized(n, softMax + 1, hardMax + 1, maxCost), first + |under|) +
    LongClauses(works, hardMax)
  }

  lemma SequenceClausesParts(works: seq<nat>, hardMin: nat, softMin: nat, minCost: int, softMax: nat, hardMax: nat, maxCost: int, first: nat,
                             short: seq<Clause>, penUnder: seq<Clause>, penOver: seq<Clause>, long: seq<Clause>)
    requires short == SpanClauses(works, Pairs(1, hardMin, |works|))
    requires penUnder == PenaltyClauses(works, Penalized(|works|, hardMin, softMin, minCost), first)
    requires penOver == PenaltyClauses(works, Penalized(|works|, softMax + 1, hardMax + 1, maxCost), first + |penUnder|)
    requires long == LongClauses(works, hardMax)
    ensures SequenceClauses(works, hardMin, softMin, minCost, softMax, hardMax, maxCost, first) == short + penUnder + penOver + long
  {
  }

  /** The penalty for a run `length` long below the soft minimum: min_cost · (soft_min − length). */
  function UnderCost(minCost: int, softMin: nat): nat -> int
  {
    length => minCost * (softMin - length)
  }

  /** The penalty for a run `length` long above the soft maximum: max_cost · (length − soft_max). */
  function OverCost(maxCost: int, softMax: nat): nat -> int
  {
    length => maxCost * (length - softMax)
  }

  /** The cost of each pair's length. */
  function Costs(ps: seq<(nat, nat)>, coef: nat -> int): seq<int>
  {
    seq(|ps|, k requires 0 <= k < |ps| => coef(ps[k].0))
  }

  /** The fresh literals first, first + 1, …, first + count − 1. */
  function FreshLiterals(first: nat, count: nat): seq<Literal>
  {
    seq(count, k requires 0 <= k < count => Pos(first + k))
  }

  /** The coefficients of the penalties, under ones first. */
  function Coefficients(n: nat, hardMin: nat, softMin: nat, minCost: int, softMax: nat, hardMax: nat, maxCost: int): seq<int>
  {
    Costs(Penalized(n, hardMin, softMin, minCost), UnderCost(minCost, softMin)) +
    Costs(Penalized(n, softMax + 1, hardMax + 1, maxCost), OverCost(maxCost, softMax))
  }

  lemma CostsSnoc(ps: seq<(nat, nat)>, p: (nat, nat), coef: nat -> int)
    ensures Costs(ps + [p], coef) == Costs(ps, coef) + [coef(p.0)]
  {
    var q := ps + [p];
    assert forall k :: 0 <= k < |ps| ==> q[k] == ps[k];
  }

  lemma FreshLiteralsSnoc(first: nat, count: nat)
    ensures FreshLiterals(first, count + 1) == FreshLiterals(first, count) + [Pos(first + count)]
  {
  }

  lemma FreshLiteralsAppend(first: nat, a: nat, b: nat)
    ensures FreshLiterals(first, a) + FreshLiterals(first + a, b) == FreshLiterals(first, a + b)
  {
  }

  // ---------------------------------------------------------------------------
  // The solver's model, as far as the constraint uses it

  /** The clauses added so far and the number of variables created so far. */
  class CpModel {
    var clauses: seq<Clause>
    var numVars: nat

    constructor (vars: nat)
      ensures clauses == [] && numVars == vars
    {
      clauses := [];
      numVars := vars;
    }

    /** `model.AddBoolOr(c)` */
    method AddBoolOr(c: Clause)
      modifies this
      ensures clauses == old(clauses) + [c] && numVars == old(numVars)
    {
      clauses := clauses + [c];
    }

    /** `model.NewBoolVar(name)`: a fresh variable. */
    method NewBoolVar() returns (v: nat)
      modifies this
      ensures v == old(numVars) && numVars == old(numVars) + 1 && clauses == old(clauses)
    {
      v := numVars;
      numVars := numVars + 1;
    }
  }

  lemma SpanClausesSnoc(works: seq<nat>, ps: seq<(nat, nat)>, p: (nat, nat))
    ensures SpanClauses(works, ps + [p]) == SpanClauses(works, ps) + [Span(works, p.1, p.0)]
  {
    var q := ps + [p];
    assert forall k :: 0 <= k < |ps| ==> q[k] == ps[k];
  }

  lemma PenaltyClausesSnoc(works: seq<nat>, ps: seq<(nat, nat)>, p: (nat, nat), first: nat)
    ensures PenaltyClauses(works, ps + [p], first) == PenaltyClauses(works, ps, first) + [Span(works, p.1, p.0) + [Pos(first + |ps|)]]
  {
    var q := ps + [p];
    assert forall k :: 0 <= k < |ps| ==> q[k] == ps[k];
  }

  lemma PairsSnoc(lo: nat, length: nat, n: nat)
    requires lo <= length
    ensures Pairs(lo, length + 1, n) == Pairs(lo, length, n) + Starts(length, n)
  {
  }

  /** After the start loop for one length, the pairs of that length have all been visited. */
  lemma PairsStep(lo: nat, length: nat, n: nat, start: nat)
    requires lo <= length
    requires length <= n ==> start == n - length + 1
    requires length > n ==> start == 0
    ensures Pairs(lo, length, n) + Starts(length, n)[..start] == Pairs(lo, length + 1, n)
  {
    assert Starts(length, n)[..start] == Starts(length, n);
  }

  /** The first loop: a span clause for every start of every length in [1, hard_min). */
  method ForbidShortRuns(model: CpModel, works: seq<nat>, hardMin: nat)
    modifies model
    ensures model.clauses == old(model.clauses) + SpanClauses(works, Pairs(1, hardMin, |works|))
    ensures model.numVars == old(model.numVars)
  {
    var n := |works|;
    var length := 1;
    while length < hardMin
      invariant 1 <= length
      invariant length <= hardMin || length == 1
      invariant model.clauses == old(model.clauses) + SpanClauses(works, Pairs(1, length, n))
      invariant model.numVars == old(model.numVars)
    {
      ghost var ps := Pairs(1, length, n);
      var start := 0;
      while start < n - length + 1
        invariant 0 <= start <= |Starts(length, n)|
        invariant model.clauses == old(model.clauses) + SpanClauses(works, ps + Starts(length, n)[..start])
        invariant model.numVars == old(model.numVars)
      {
        var span := NegatedBoundedSpan(works, start, length);
        SpanClausesSnoc(works, ps + Starts(length, n)[..start], (length, start));
        assert ps + Starts(length, n)[..start + 1] == ps + Starts(length, n)[..start] + [(length, start)];
        model.AddBoolOr(span);
        start := start + 1;
      }
      PairsStep(1, length, n, start);
      length := length + 1;
    }
    if hardMin == 0 {
      assert Pairs(1, hardMin, n) == [] == Pairs(1, length, n);
    }
  }

  lemma AppendAssoc<T>(a: seq<T>, b: seq<T>, c: seq<T>)
    ensures a + (b + c) == a + b + c
  {
  }

  lemma PenaltyClausesAppend(works: seq<nat>, ps: seq<(nat, nat)>, qs: seq<(nat, nat)>, first: nat)
    ensures PenaltyClauses(works, ps + qs, first) == PenaltyClauses(works, ps, first) + PenaltyClauses(works, qs, first + |ps|)
  {
    var r := ps + qs;
    assert forall k :: 0 <= k < |ps| ==> r[k] == ps[k];
    assert forall k :: |ps| <= k < |r| ==> r[k] == qs[k - |ps|];
  }

  lemma CostsAppend(ps: seq<(nat, nat)>, qs: seq<(nat, nat)>, coef: nat -> int)
    ensures Costs(ps + qs, coef) == Costs(ps, coef) + Costs(qs, coef)
  {
    var r := ps + qs;
    assert forall k :: 0 <= k < |ps| ==> r[k] == ps[k];
    assert forall k :: |ps| <= k < |r| ==> r[k] == qs[k - |ps|];
  }

  /** The inner penalty loop for one length: every start, a span clause with a fresh literal and the length's cost. */
  method PenalizeLength(model: CpModel, works: seq<nat>, length: nat, coef: nat -> int)
    returns (lits: seq<Literal>, coeffs: seq<int>)
    modifies model
    ensures var ps := Starts(length, |works|);
      model.clauses == old(model.clauses) + PenaltyClauses(works, ps, old(model.numVars)) &&
      model.numVars == old(model.numVars) + |ps| &&
      lits == FreshLiterals(old(model.numVars), |ps|) &&
      coeffs == Costs(ps, coef)
  {
    var n := |works|;
    ghost var first := model.numVars;
    ghost var all := Starts(length, n);
    lits, coeffs := [], [];
    var start := 0;
    while start < n - length + 1
      invariant 0 <= start <= |all|
      invariant var ps := all[..start];
        model.clauses == old(model.clauses) + PenaltyClauses(works, ps, first) &&
        model.numVars == first + |ps| &&
        lits == FreshLiterals(first, |ps|) &&
        coeffs == Costs(ps, coef)
    {
      ghost var ps := all[..start];
      var span := NegatedBoundedSpan(works, start, length);
      var lit := model.NewBoolVar();
      span := span + [Pos(lit)];
      model.AddBoolOr(span);
      lits := lits + [Pos(lit)];
      coeffs := coeffs + [coef(length)];
      PenaltyClausesSnoc(works, ps, (length, start), first);
      CostsSnoc(ps, (length, start), coef);
      FreshLiteralsSnoc(first, |ps|);
      assert all[..start + 1] == ps + [(length, start)];
      start := start + 1;
    }
    assert all[..start] == all;
  }

  /**
   * The state after the penalty loops have visited the pairs ps: the model
   * holds base plus one penalty clause per pair, each with its own fresh
   * literal numbered from first, and the literals and coefficients are listed.
   */
  ghost predicate Penalties(clauses: seq<Clause>, numVars: nat, lits: seq<Literal>, coeffs: seq<int>,
                            base: seq<Clause>, works: seq<nat>, ps: seq<(nat, nat)>, first: nat, coef: nat -> int)
  {
    clauses == base + PenaltyClauses(works, ps, first) &&
    numVars == first + |ps| &&
    lits == FreshLiterals(first, |ps|) &&
    coeffs == Costs(ps, coef)
  }

  /** Visiting the pairs `more` after the pairs `done` extends the state accordingly. */
  lemma PenaltiesStep(clauses: seq<Clause>, numVars: nat, lits: seq<Literal>, coeffs: seq<int>,
                      base: seq<Clause>, works: seq<nat>, done: seq<(nat, nat)>, more: seq<(nat, nat)>, first: nat, coef: nat -> int)
    requires Penalties(clauses, numVars, lits, coeffs, base, works, done, first, coef)
    ensures Penalties(clauses + PenaltyClauses(works, more, numVars), numVars + |more|,
                      lits + FreshLiterals(numVars, |more|), coeffs + Costs(more, coef),
                      base, works, done + more, first, coef)
  {
    PenaltyClausesAppend(works, done, more, first);
    AppendAssoc(base, PenaltyClauses(works, done, first), PenaltyClauses(works, more, first + |done|));
    CostsAppend(done, more, coef);
    FreshLiteralsAppend(first, |done|, |more|);
  }

  /**
   * The two penalty loops: for every start of every length in [lo, hi), the
   * span clause extended by a fresh literal, which is recorded with the
   * coefficient `coef(length)`.
   */
  method PenalizeRuns(model: CpModel, works: seq<nat>, lo: nat, hi: nat, coef: nat -> int)
    returns (lits: seq<Literal>, coeffs: seq<int>)
    modifies model
    ensures var ps := Pairs(lo, hi, |works|);
      model.clauses == old(model.clauses) + PenaltyClauses(works, ps, old(model.numVars)) &&
      model.numVars == old(model.numVars) + |ps| &&
      lits == FreshLiterals(old(model.numVars), |ps|) &&
      coeffs == Costs(ps, coef)
  {
    var n := |works|;
    ghost var first := model.numVars;
    ghost var done: seq<(nat, nat)> := [];
    lits, coeffs := [], [];
    var length := lo;
    while length < hi
      invariant lo <= length
      invariant length <= hi || length == lo
      invariant done == Pairs(lo, length, n)
      invariant Penalties(model.clauses, model.numVars, lits, coeffs, old(model.clauses), works, done, first, coef)
    {
      ghost var before, vars := model.clauses, model.numVars;
      PenaltiesStep(before, vars, lits, coeffs, old(model.clauses), works, done, Starts(length, n), first, coef);
      var ls, cs := PenalizeLength(model, works, length, coef);
      lits := lits + ls;
      coeffs := coeffs + cs;
      PairsSnoc(lo, length, n);
      done := done + Starts(length, n);
      length := length + 1;
    }
    if hi < lo {
      assert Pairs(lo, hi, n) == [] == Pairs(lo, length, n);
    }
  }

  /** The last loop: for every start that leaves room, a clause forbidding hard_max + 1 trues in a row. */
  method ForbidLongRuns(model: CpModel, works: seq<nat>, hardMax: nat)
    modifies model
    ensures model.clauses == old(model.clauses) + LongClauses(works, hardMax)
    ensures model.numVars == old(model.numVars)
  {
    var count := if hardMax < |works| then |works| - hardMax else 0;
    var start := 0;
    while start < |works| - hardMax
      invariant 0 <= start <= count
      invariant model.clauses == old(model.clauses) + LongClauses(works, hardMax)[..start]
      invariant model.numVars == old(model.numVars)
    {
      assert LongClauses(works, hardMax)[..start + 1] == LongClauses(works, hardMax)[..start] + [Window(works, start, hardMax + 1)];
      var window := seq(hardMax + 1, i requires 0 <= i < hardMax + 1 => Neg(works[start + i]));
      forall i | 0 <= i < hardMax + 1
        ensures window[i] == Window(works, start, hardMax + 1)[i]
      {
        assert start + i < |works|;
        assert window[i] == Neg(works[start + i]);
        assert |Window(works, start, hardMax + 1)| == hardMax + 1;
        assert Window(works, start, hardMax + 1)[i] == Neg(At(works, start + i));
      }
      assert window == Window(works, start, hardMax + 1);
      model.AddBoolOr(window);
      start := start + 1;
    }
    assert LongClauses(works, hardMax)[..start] == LongClauses(works, hardMax);
  }

  /** A penalty loop guarded by `if cost > 0`. */
  method PenalizeIfCostly(model: CpModel, works: seq<nat>, lo: nat, hi: nat, cost: int, coef: nat -> int)
    returns (lits: seq<Literal>, coeffs: seq<int>)
    modifies model
    ensures var ps := Penalized(|works|, lo, hi, cost);
      model.clauses == old(model.clauses) + PenaltyClauses(works, ps, old(model.numVars)) &&
      model.numVars == old(model.numVars) + |ps| &&
      lits == FreshLiterals(old(model.numVars), |ps|) &&
      coeffs == Costs(ps, coef)
  {
    if cost > 0 {
      lits, coeffs := PenalizeRuns(model, works, lo, hi, coef);
    } else {
      lits, coeffs := [], [];
      assert PenaltyClauses(works, [], model.numVars) == [];
    }
  }

  /**
   * `add_soft_sequence_constraint`: adds the hard clauses, the penalty
   * clauses and their fresh literals, and returns the literals with their
   * coefficients.
   */
  method AddSoftSequenceConstraint(model: CpModel, works: seq<nat>, hardMin: nat, softMin: nat, minCost: int,
                                   softMax: nat, hardMax: nat, maxCost: int)
    returns (costLiterals: seq<Literal>, costCoefficients: seq<int>)
    requires forall i :: 0 <= i < |works| ==> works[i] < model.numVars
    modifies model
    ensures forall k :: 0 <= k < |costLiterals| ==>
      costLiterals[k].Pos? && forall i :: 0 <= i < |works| ==> costLiterals[k].v != works[i]
    ensures model.clauses == old(model.clauses) + SequenceClauses(works, hardMin, softMin, minCost, softMax, hardMax, maxCost, old(model.numVars))
    ensures var n := |works|;
      var count := |Penalized(n, hardMin, softMin, minCost)| + |Penalized(n, softMax + 1, hardMax + 1, maxCost)|;
      model.numVars == old(model.numVars) + count && costLiterals == FreshLiterals(old(model.numVars), count)
    ensures costCoefficients == Coefficients(|works|, hardMin, softMin, minCost, softMax, hardMax, maxCost)
    ensures |costLiterals| == |costCoefficients|
  {
    ghost var first := model.numVars;
    ghost var start := model.clauses;
    ghost var under := Penalized(|works|, hardMin, softMin, minCost);
    ghost var over := Penalized(|works|, softMax + 1, hardMax + 1, maxCost);
    ForbidShortRuns(model, works, hardMin);
    ghost var short := model.clauses[|start|..];
    var underLits, underCoeffs := PenalizeIfCostly(model, works, hardMin, softMin, minCost, UnderCost(minCost, softMin));
    ghost var penUnder := PenaltyClauses(works, under, first);
    var overLits, overCoeffs := PenalizeIfCostly(model, works, softMax + 1, hardMax + 1, maxCost, OverCost(maxCost, softMax));
    ghost var penOver := PenaltyClauses(works, over, first + |under|);
    ForbidLongRuns(model, works, hardMax);
    ghost var long := LongClauses(works, hardMax);
    costLiterals := underLits + overLits;
    costCoefficients := underCoeffs + overCoeffs;
    FreshLiteralsAppend(first, |under|, |over|);
    AppendAssoc(start, short, penUnder);
    AppendAssoc(start, short + penUnder, penOver);
    AppendAssoc(start, short + penUnder + penOver, long);
    SequenceClausesParts(works, hardMin, softMin, minCost, softMax, hardMax, maxCost, first, short, penUnder, penOver, long);
    CoefficientsValues(|works|, hardMin, softMin, minCost, softMax, hardMax, maxCost);
  }

  // ---------------------------------------------------------------------------
  // What the clauses mean under an assignment

  /** Every maximal run of trues in w has a length in [lo, hi]. */
  ghost predicate RunsWithin(w: seq<bool>, lo: int, hi: int)
  {
    forall start, length :: MaximalRun(w, start, length) ==> lo <= length <= hi
  }

  lemma {:induction false} AllSatisfiedAppend(cs: seq<Clause>, ds: seq<Clause>, a: nat -> bool)
    ensures AllSatisfied(cs + ds, a) <==> AllSatisfied(cs, a) && AllSatisfied(ds, a)
  {
    var es := cs + ds;
    assert forall k :: 0 <= k < |cs| ==> es[k] == cs[k];
    assert forall k :: 0 <= k < |ds| ==> es[|cs| + k] == ds[k];
  }

  /** The k-th visited pair is a pair the loops were meant to visit. */
  lemma PairsAt(lo: nat, hi: nat, n: nat, k: nat)
    requires k < |Pairs(lo, hi, n)|
    ensures var p := Pairs(lo, hi, n)[k];
      lo <= p.0 < hi && p.0 + p.1 <= n
  {
    var p := Pairs(lo, hi, n)[k];
    PairsMember(lo, hi, n, p.0, p.1);
  }

  /** The first position of the run of trues that ends at position i. */
  function RunStart(w: seq<bool>, i: nat): (j: nat)
    requires i < |w| && w[i]
    ensures j <= i && (j > 0 ==> !w[j - 1])
    ensures forall m :: j <= m <= i ==> w[m]
  {
    if i > 0 && w[i - 1] then RunStart(w, i - 1) else i
  }

  /** The last position of the run of trues that starts at position i. */
  function RunEnd(w: seq<bool>, i: nat): (j: nat)
    requires i < |w| && w[i]
    ensures i <= j < |w| && (j + 1 < |w| ==> !w[j + 1])
    ensures forall m :: i <= m <= j ==> w[m]
    decreases |w| - i
  {
    if i + 1 < |w| && w[i + 1] then RunEnd(w, i + 1) else i
  }

  /** A non-empty stretch of trues lies inside a maximal run at least as long. */
  lemma RunAround(w: seq<bool>, start: nat, length: nat)
    requires 1 <= length && start + length <= |w|
    requires forall m :: start <= m < start + length ==> w[m]
    ensures exists s, l :: MaximalRun(w, s, l) && l >= length
  {
    var s := RunStart(w, start);
    var e := RunEnd(w, start + length - 1);
    assert MaximalRun(w, s, e - s + 1);
  }

  /** The short-run clauses hold exactly when no maximal run is shorter than hard_min. */
  lemma ShortClausesIff(works: seq<nat>, hardMin: nat, a: nat -> bool)
    ensures AllSatisfied(SpanClauses(works, Pairs(1, hardMin, |works|)), a) <==>
            forall start, length :: MaximalRun(Values(works, a), start, length) ==> hardMin <= length
  {
    var n := |works|;
    var ps := Pairs(1, hardMin, n);
    var cs := SpanClauses(works, ps);
    var w := Values(works, a);
    if AllSatisfied(cs, a) {
      forall start, length | MaximalRun(w, start, length)
        ensures hardMin <= length
      {
        if length < hardMin {
          PairsMember(1, hardMin, n, length, start);
          var k :| 0 <= k < |ps| && ps[k] == (length, start);
          assert cs[k] == Span(works, start, length);
          SpanFalse(works, start, length, a);
        }
      }
    }
    if forall start, length :: MaximalRun(w, start, length) ==> hardMin <= length {
      forall k | 0 <= k < |cs|
        ensures Satisfied(cs[k], a)
      {
        PairsAt(1, hardMin, n, k);
        SpanFalse(works, ps[k].1, ps[k].0, a);
        if !Satisfied(cs[k], a) {
          assert MaximalRun(w, ps[k].1, ps[k].0);
        }
      }
    }
  }

  /** A window clause holds exactly when one of its positions is false. */
  lemma WindowSatisfied(works: seq<nat>, start: nat, len: nat, a: nat -> bool)
    requires start + len <= |works|
    ensures Satisfied(Window(works, start, len), a) <==> exists m :: start <= m < start + len && !Values(works, a)[m]
  {
    var c := Window(works, start, len);
    var w := Values(works, a);
    if Satisfied(c, a) {
      var i :| 0 <= i < |c| && Holds(c[i], a);
      assert c[i] == Neg(At(works, start + i));
      assert !w[start + i];
    }
    if exists m :: start <= m < start + len && !w[m] {
      var m :| start <= m < start + len && !w[m];
      assert c[m - start] == Neg(At(works, m));
      assert Holds(c[m - start], a);
    }
  }

  /** The long-run clauses hold exactly when no maximal run is longer than hard_max. */
  lemma LongClausesIff(works: seq<nat>, hardMax: nat, a: nat -> bool)
    ensures AllSatisfied(LongClauses(works, hardMax), a) <==>
            forall start, length :: MaximalRun(Values(works, a), start, length) ==> length <= hardMax
  {
    var cs := LongClauses(works, hardMax);
    var w := Values(works, a);
    if AllSatisfied(cs, a) {
      forall start, length | MaximalRun(w, start, length)
        ensures length <= hardMax
      {
        if length > hardMax {
          assert cs[start] == Window(works, start, hardMax + 1);
          WindowSatisfied(works, start, hardMax + 1, a);
        }
      }
    }
    if forall start, length :: MaximalRun(w, start, length) ==> length <= hardMax {
      forall k | 0 <= k < |cs|
        ensures Satisfied(cs[k], a)
      {
        WindowSatisfied(works, k, hardMax + 1, a);
        if !Satisfied(cs[k], a) {
          RunAround(w, k, hardMax + 1);
        }
      }
    }
  }

  /**
   * The hard clauses hold under an assignment exactly when every maximal run
   * of trues is at least hard_min and at most hard_max long.
   */
  lemma HardClausesIff(works: seq<nat>, hardMin: nat, hardMax: nat, a: nat -> bool)
    ensures AllSatisfied(HardClauses(works, hardMin, hardMax), a) <==> RunsWithin(Values(works, a), hardMin, hardMax)
  {
    AllSatisfiedAppend(SpanClauses(works, Pairs(1, hardMin, |works|)), LongClauses(works, hardMax), a);
    ShortClausesIff(works, hardMin, a);
    LongClausesIff(works, hardMax, a);
  }

  /**
   * A penalty clause holds exactly when its literal is true or its span is
   * not an isolated run: the literal is forced true by a run of that length
   * at that start and by nothing else.
   */
  lemma PenaltyClauseIff(works: seq<nat>, ps: seq<(nat, nat)>, first: nat, k: nat, a: nat -> bool)
    requires k < |ps| && ps[k].0 + ps[k].1 <= |works|
    ensures Satisfied(PenaltyClauses(works, ps, first)[k], a) <==>
            a(first + k) || !IsolatedRun(Values(works, a), ps[k].1, ps[k].0)
  {
    var span := Span(works, ps[k].1, ps[k].0);
    var c := PenaltyClauses(works, ps, first)[k];
    assert c == span + [Pos(first + k)];
    SpanFalse(works, ps[k].1, ps[k].0, a);
    if Satisfied(c, a) && !a(first + k) {
      var i :| 0 <= i < |c| && Holds(c[i], a);
      assert Holds(span[i], a);
    }
    if a(first + k) {
      assert Holds(c[|span|], a);
    }
    if Satisfied(span, a) {
      var i :| 0 <= i < |span| && Holds(span[i], a);
      assert c[i] == span[i];
    }
  }

  /**
   * Under any assignment satisfying the clauses, every maximal run of a
   * penalised length has its penalty literal set, and the clauses ask
   * nothing more.
   */
  lemma PenaltyClausesIff(works: seq<nat>, lo: nat, hi: nat, first: nat, a: nat -> bool)
    ensures var ps := Pairs(lo, hi, |works|);
      AllSatisfied(PenaltyClauses(works, ps, first), a) <==>
      forall k :: 0 <= k < |ps| && IsolatedRun(Values(works, a), ps[k].1, ps[k].0) ==> a(first + k)
  {
    var ps := Pairs(lo, hi, |works|);
    forall k | 0 <= k < |ps|
      ensures Satisfied(PenaltyClauses(works, ps, first)[k], a) <==>
              a(first + k) || !IsolatedRun(Values(works, a), ps[k].1, ps[k].0)
    {
      PairsAt(lo, hi, |works|, k);
      PenaltyClauseIff(works, ps, first, k, a);
    }
  }

  /** Every isolated run of trues at a pair's span sets that pair's penalty literal, numbered from `first`. */
  ghost predicate PenaltiesSet(works: seq<nat>, ps: seq<(nat, nat)>, first: nat, a: nat -> bool)
  {
    forall k :: 0 <= k < |ps| && ps[k].0 + ps[k].1 <= |works| && IsolatedRun(Values(works, a), ps[k].1, ps[k].0) ==> a(first + k)
  }

  /** The same for a penalty loop guarded by its cost: without a positive cost it adds nothing. */
  lemma PenalizedClausesIff(works: seq<nat>, lo: nat, hi: nat, cost: int, first: nat, a: nat -> bool)
    ensures AllSatisfied(PenaltyClauses(works, Penalized(|works|, lo, hi, cost), first), a) <==>
      PenaltiesSet(works, Penalized(|works|, lo, hi, cost), first, a)
  {
    if cost > 0 {
      var ps := Pairs(lo, hi, |works|);
      PenaltyClausesIff(works, lo, hi, first, a);
      forall k | 0 <= k < |ps|
        ensures ps[k].0 + ps[k].1 <= |works|
      {
        PairsAt(lo, hi, |works|, k);
      }
    }
  }

  /**
   * Everything `add_soft_sequence_constraint` adds holds under an assignment
   * exactly when every maximal run of trues is between hard_min and hard_max
   * long, and every isolated run of a penalised length sets its penalty
   * literal: under-length ones from `first`, over-length ones after them.
   */
  lemma SequenceClausesIff(works: seq<nat>, hardMin: nat, softMin: nat, minCost: int, softMax: nat, hardMax: nat, maxCost: int,
                           first: nat, a: nat -> bool)
    ensures var n := |works|;
      var under, over := Penalized(n, hardMin, softMin, minCost), Penalized(n, softMax + 1, hardMax + 1, maxCost);
      AllSatisfied(SequenceClauses(works, hardMin, softMin, minCost, softMax, hardMax, maxCost, first), a) <==>
        RunsWithin(Values(works, a), hardMin, hardMax) &&
        PenaltiesSet(works, under, first, a) && PenaltiesSet(works, over, first + |under|, a)
  {
    var n := |works|;
    var under := Penalized(n, hardMin, softMin, minCost);
    AllSatisfiedSplit(SpanClauses(works, Pairs(1, hardMin, n)), PenaltyClauses(works, under, first),
                      PenaltyClauses(works, Penalized(n, softMax + 1, hardMax + 1, maxCost), first + |under|),
                      LongClauses(works, hardMax), a);
    HardClausesIff(works, hardMin, hardMax, a);
    PenalizedClausesIff(works, hardMin, softMin, minCost, first, a);
    PenalizedClausesIff(works, softMax + 1, hardMax + 1, maxCost, first + |under|, a);
  }

  /** The hard clauses sit at both ends of the list, the penalty clauses between them. */
  lemma AllSatisfiedSplit(short: seq<Clause>, penUnder: seq<Clause>, penOver: seq<Clause>, long: seq<Clause>, a: nat -> bool)
    ensures AllSatisfied(short + penUnder + penOver + long, a) <==>
      AllSatisfied(short + long, a) && AllSatisfied(penUnder, a) && AllSatisfied(penOver, a)
  {
    AllSatisfiedAppend(short, penUnder, a);
    AllSatisfiedAppend(short + penUnder, penOver, a);
    AllSatisfiedAppend(short + penUnder + penOver, long, a);
    AllSatisfiedAppend(short, long, a);
  }

  lemma ProductPositive(x: int, y: int)
    requires x > 0 && y > 0
    ensures x * y > 0
  {
  }

  /** The penalties of one loop: one per visited pair, coef(length) each, positive when coef is positive on [lo, hi). */
  lemma CostsOfPairs(n: nat, lo: nat, hi: nat, cost: int, coef: nat -> int)
    requires cost > 0 ==> forall length :: lo <= length < hi ==> coef(length) > 0
    ensures var ps := Penalized(n, lo, hi, cost);
      var cs := Costs(ps, coef);
      |cs| == |ps| && forall k :: 0 <= k < |ps| ==> cs[k] == coef(ps[k].0) > 0
  {
    var ps := Penalized(n, lo, hi, cost);
    forall k | 0 <= k < |ps|
      ensures coef(ps[k].0) > 0
    {
      PairsAt(lo, hi, n, k);
    }
  }

  /**
   * There is one coefficient per penalty literal: min_cost · (soft_min − length)
   * for the under-length spans, then max_cost · (length − soft_max) for the
   * over-length spans, each of them positive.
   */
  lemma CoefficientsValues(n: nat, hardMin: nat, softMin: nat, minCost: int, softMax: nat, hardMax: nat, maxCost: int)
    ensures var under, over := Penalized(n, hardMin, softMin, minCost), Penalized(n, softMax + 1, hardMax + 1, maxCost);
      var cs := Coefficients(n, hardMin, softMin, minCost, softMax, hardMax, maxCost);
      |cs| == |under| + |over| &&
      (forall k :: 0 <= k < |under| ==> cs[k] == minCost * (softMin - under[k].0) > 0) &&
      (forall k :: 0 <= k < |over| ==> cs[|under| + k] == maxCost * (over[k].0 - softMax) > 0)
  {
    var under, over := Penalized(n, hardMin, softMin, minCost), Penalized(n, softMax + 1, hardMax + 1, maxCost);
    var underCost, overCost := UnderCost(minCost, softMin), OverCost(maxCost, softMax);
    if minCost > 0 {
      forall length | hardMin <= length < softMin
        ensures underCost(length) > 0
      {
        ProductPositive(minCost, softMin - length);
      }
    }
    CostsOfPairs(n, hardMin, softMin, minCost, underCost);
    if maxCost > 0 {
      forall length | softMax + 1 <= length < hardMax + 1
        ensures overCost(length) > 0
      {
        ProductPositive(maxCost, length - softMax);
      }
    }
    CostsOfPairs(n, softMax + 1, hardMax + 1, maxCost, overCost);
    var cu, co := Costs(under, underCost), Costs(over, overCost);
    var cs := Coefficients(n, hardMin, softMin, minCost, softMax, hardMax, maxCost);
    assert cs == cu + co;
    forall k | 0 <= k < |under|
      ensures cs[k] == minCost * (softMin - under[k].0) > 0
    {
      assert cs[k] == cu[k] == underCost(under[k].0);
    }
    forall k | 0 <= k < |over|
      ensures cs[|under| + k] == maxCost * (over[k].0 - softMax) > 0
    {
      assert cs[|under| + k] == co[k] == overCost(over[k].0);
    }
  }
}
