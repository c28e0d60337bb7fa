/** Denotational semantics of the mu-calculus over a finite LTS: the
    reference the evaluator is measured against. Fixpoints are the
    `n`-th Kleene approximants, `n` the number of states; the lemmas show
    these are the least and greatest fixpoints. */
module Semantics {
  import opened Formulas
  import opened StateSets

  /** An LTS with textual labels. */
  datatype LabelledEdge = LabelledEdge(s: nat, act: string, t: nat)
  datatype Lts = Lts(nrOfStates: nat, edges: seq<LabelledEdge>)

  predicate LtsWf(m: Lts) {
    forall k :: 0 <= k < |m.edges| ==> m.edges[k].s < m.nrOfStates && m.edges[k].t < m.nrOfStates
  }

  /** Values of the free variables. */
  type Env = map<nat, StateSet>

  predicate EnvWf(m: Lts, rho: Env) {
    forall v :: v in rho ==> |rho[v]| == m.nrOfStates
  }

  /** `s` has an `a`-edge into `c`. */
  function DiamondSet(m: Lts, a: string, c: StateSet): (r: StateSet)
    requires LtsWf(m) && |c| == m.nrOfStates
    ensures |r| == m.nrOfStates
  {
    seq(m.nrOfStates, s =>
      exists k :: 0 <= k < |m.edges| && m.edges[k].s == s && m.edges[k].act == a && c[m.edges[k].t])
  }

  /** Every `a`-edge of `s` leads into `c` (vacuously so without one). */
  function BoxSet(m: Lts, a: string, c: StateSet): (r: StateSet)
    requires LtsWf(m) && |c| == m.nrOfStates
    ensures |r| == m.nrOfStates
  {
    seq(m.nrOfStates, s =>
      forall k :: 0 <= k < |m.edges| && m.edges[k].s == s && m.edges[k].act == a ==> c[m.edges[k].t])
  }

  function Complement(c: StateSet): (r: StateSet)
    ensures |r| == |c|
  {
    seq(|c|, s requires 0 <= s < |c| => !c[s])
  }

  /** Box is the dual of Diamond. */
  lemma {:induction false} BoxDiamondDual(m: Lts, a: string, c: StateSet)
    requires LtsWf(m) && |c| == m.nrOfStates
    ensures BoxSet(m, a, c) == Complement(DiamondSet(m, a, Complement(c)))
  {
  }

  /** The set of states satisfying `f` under `rho`. */
  function Sem(m: Lts, rho: Env, f: Formula): (r: StateSet)
    requires LtsWf(m) && EnvWf(m, rho)
    ensures |r| == m.nrOfStates
    decreases f, 0, 0
  {
    var n := m.nrOfStates;
    match f
    case FFalse => Uniform(n, false)
    case FTrue => Uniform(n, true)
    case Var(x) => if x in rho then rho[x] else Uniform(n, false)
    case Mu(x, b) => Approx(m, rho, x, b, Uniform(n, false), n)
    case Nu(x, b) => Approx(m, rho, x, b, Uniform(n, true), n)
    case And(l, r) => Meet(Sem(m, rho, l), Sem(m, rho, r))
    case Or(l, r) => Join(Sem(m, rho, l), Sem(m, rho, r))
    case Diamond(a, b) => DiamondSet(m, a, Sem(m, rho, b))
    case Box(a, b) => BoxSet(m, a, Sem(m, rho, b))
  }

  /** The `k`-th approximant of the fixpoint of `Y -> Sem(b)[x := Y]`. */
  function Approx(m: Lts, rho: Env, x: nat, b: Formula, start: StateSet, k: nat): (r: StateSet)
    requires LtsWf(m) && EnvWf(m, rho) && |start| == m.nrOfStates
    ensures |r| == m.nrOfStates
    decreases b, 1, k
  {
    if k == 0 then start else Sem(m, rho[x := Approx(m, rho, x, b, start, k - 1)], b)
  }

  /** One application of the body of the binder for `x`. */
  function Body(m: Lts, rho: Env, x: nat, b: Formula, y: StateSet): (r: StateSet)
    requires LtsWf(m) && EnvWf(m, rho) && |y| == m.nrOfStates
    ensures |r| == m.nrOfStates
  {
    Sem(m, rho[x := y], b)
  }

  // ---------------------------------------------------------------------
  // Monotonicity

  predicate EnvLe(rho1: Env, rho2: Env) {
    && rho1.Keys == rho2.Keys
    && forall v :: v in rho1 ==> |rho1[v]| == |rho2[v]| && Subset(rho1[v], rho2[v])
  }

  /** Every operator is monotone, so the semantics is monotone in the
      environment. */
  lemma {:induction false} SemMonotone(m: Lts, rho1: Env, rho2: Env, f: Formula)
    requires LtsWf(m) && EnvWf(m, rho1) && EnvWf(m, rho2) && EnvLe(rho1, rho2)
    ensures Subset(Sem(m, rho1, f), Sem(m, rho2, f))
    decreases f, 0, 0
  {
    var n := m.nrOfStates;
    match f
    case FFalse =>
    case FTrue =>
    case Var(x) =>
    case Mu(x, b) =>
      ApproxMonotone(m, rho1, rho2, x, b, Uniform(n, false), Uniform(n, false), n);
    case Nu(x, b) =>
      ApproxMonotone(m, rho1, rho2, x, b, Uniform(n, true), Uniform(n, true), n);
    case And(l, r) =>
      SemMonotone(m, rho1, rho2, l);
      SemMonotone(m, rho1, rho2, r);
    case Or(l, r) =>
      SemMonotone(m, rho1, rho2, l);
      SemMonotone(m, rho1, rho2, r);
    case Diamond(a, b) =>
      SemMonotone(m, rho1, rho2, b);
      var c1, c2 := Sem(m, rho1, b), Sem(m, rho2, b);
      forall s | 0 <= s < n && DiamondSet(m, a, c1)[s]
        ensures DiamondSet(m, a, c2)[s]
      {
        var k :| 0 <= k < |m.edges| && m.edges[k].s == s && m.edges[k].act == a && c1[m.edges[k].t];
        assert c2[m.edges[k].t];
      }
    case Box(a, b) =>
      SemMonotone(m, rho1, rho2, b);
      var c1, c2 := Sem(m, rho1, b), Sem(m, rho2, b);
      forall s | 0 <= s < n && BoxSet(m, a, c1)[s]
        ensures BoxSet(m, a, c2)[s]
      {
        forall k | 0 <= k < |m.edges| && m.edges[k].s == s && m.edges[k].act == a
          ensures c2[m.edges[k].t]
        {
          assert c1[m.edges[k].t];
        }
      }
  }

  lemma {:induction false} ApproxMonotone(m: Lts, rho1: Env, rho2: Env, x: nat, b: Formula,
                                          start1: StateSet, start2: StateSet, k: nat)
    requires LtsWf(m) && EnvWf(m, rho1) && EnvWf(m, rho2) && EnvLe(rho1, rho2)
    requires |start1| == m.nrOfStates && |start2| == m.nrOfStates && Subset(start1, start2)
    ensures Subset(Approx(m, rho1, x, b, start1, k), Approx(m, rho2, x, b, start2, k))
    decreases b, 1, k
  {
    if k > 0 {
      ApproxMonotone(m, rho1, rho2, x, b, start1, start2, k - 1);
      var y1 := Approx(m, rho1, x, b, start1, k - 1);
      var y2 := Approx(m, rho2, x, b, start2, k - 1);
      SemMonotone(m, rho1[x := y1], rho2[x := y2], b);
    }
  }

  /** The body is monotone in the bound variable. */
  lemma {:induction false} BodyMonotone(m: Lts, rho: Env, x: nat, b: Formula, y1: StateSet, y2: StateSet)
    requires LtsWf(m) && EnvWf(m, rho) && |y1| == m.nrOfStates && |y2| == m.nrOfStates
    requires Subset(y1, y2)
    ensures Subset(Body(m, rho, x, b, y1), Body(m, rho, x, b, y2))
  {
    SemMonotone(m, rho[x := y1], rho[x := y2], b);
  }

  // ---------------------------------------------------------------------
  // The approximants reach the extremal fixpoints

  lemma {:induction false} ApproxStep(m: Lts, rho: Env, x: nat, b: Formula, start: StateSet, k: nat)
    requires LtsWf(m) && EnvWf(m, rho) && |start| == m.nrOfStates
    ensures Approx(m, rho, x, b, start, k + 1) == Body(m, rho, x, b, Approx(m, rho, x, b, start, k))
  {
  }

  /** From the empty set the approximants grow; from the full set they
      shrink. */
  lemma {:induction false} ApproxChain(m: Lts, rho: Env, x: nat, b: Formula, least: bool, k: nat)
    requires LtsWf(m) && EnvWf(m, rho)
    ensures var start := Uniform(m.nrOfStates, !least);
            var a0 := Approx(m, rho, x, b, start, k);
            var a1 := Approx(m, rho, x, b, start, k + 1);
            if least then Subset(a0, a1) else Subset(a1, a0)
  {
    var start := Uniform(m.nrOfStates, !least);
    if k > 0 {
      ApproxChain(m, rho, x, b, least, k - 1);
      var a := Approx(m, rho, x, b, start, k - 1);
      var a' := Approx(m, rho, x, b, start, k);
      if least {
        BodyMonotone(m, rho, x, b, a, a');
      } else {
        BodyMonotone(m, rho, x, b, a', a);
      }
    }
  }

  /** Once two consecutive approximants agree, all later ones do. */
  lemma {:induction false} ApproxStable(m: Lts, rho: Env, x: nat, b: Formula, start: StateSet, j: nat, i: nat)
    requires LtsWf(m) && EnvWf(m, rho) && |start| == m.nrOfStates
    requires Approx(m, rho, x, b, start, j) == Approx(m, rho, x, b, start, j + 1)
    ensures Approx(m, rho, x, b, start, j + i) == Approx(m, rho, x, b, start, j)
    decreases i
  {
    if i > 0 {
      ApproxStable(m, rho, x, b, start, j, i - 1);
      assert Approx(m, rho, x, b, start, j + i) == Body(m, rho, x, b, Approx(m, rho, x, b, start, j + i - 1));
    }
  }

  /** Until the chain stops, each step adds (least) or removes (greatest)
      at least one state. */
  lemma {:induction false} ApproxProgress(m: Lts, rho: Env, x: nat, b: Formula, least: bool, k: nat)
    requires LtsWf(m) && EnvWf(m, rho)
    ensures var start := Uniform(m.nrOfStates, !least);
            || (exists j :: 0 <= j <= k && Approx(m, rho, x, b, start, j) == Approx(m, rho, x, b, start, j + 1))
            || (least && Count(Approx(m, rho, x, b, start, k)) >= k)
            || (!least && Count(Approx(m, rho, x, b, start, k)) + k <= m.nrOfStates)
  {
    var n := m.nrOfStates;
    var start := Uniform(n, !least);
    if k == 0 {
      assert Approx(m, rho, x, b, start, k) == start;
      if !least {
        CountFullSet(n);
        assert start == Uniform(n, true);
        assert Count(start) + k <= n;
      } else {
        assert Count(start) >= k;
      }
    } else {
      ApproxProgress(m, rho, x, b, least, k - 1);
      var a := Approx(m, rho, x, b, start, k - 1);
      var a' := Approx(m, rho, x, b, start, k);
      ApproxChain(m, rho, x, b, least, k - 1);
      if least {
        CountStrictlyMonotone(a, a');
      } else {
        CountStrictlyMonotone(a', a);
      }
    }
  }

  lemma {:induction false} CountFullSet(n: nat)
    ensures Count(Uniform(n, true)) == n
  {
    if n > 0 {
      CountFullSet(n - 1);
      assert Uniform(n, true)[..n - 1] == Uniform(n - 1, true);
    }
  }

  /** The `n`-th approximant is a fixpoint of the body. */
  lemma {:induction false} ApproxConverges(m: Lts, rho: Env, x: nat, b: Formula, least: bool)
    requires LtsWf(m) && EnvWf(m, rho)
    ensures var start := Uniform(m.nrOfStates, !least);
            Approx(m, rho, x, b, start, m.nrOfStates) == Approx(m, rho, x, b, start, m.nrOfStates + 1)
  {
    var n := m.nrOfStates;
    var start := Uniform(n, !least);
    var an := Approx(m, rho, x, b, start, n);
    var an1 := Approx(m, rho, x, b, start, n + 1);
    ApproxProgress(m, rho, x, b, least, n);
    ApproxChain(m, rho, x, b, least, n);
    if exists j :: 0 <= j <= n && Approx(m, rho, x, b, start, j) == Approx(m, rho, x, b, start, j + 1) {
      var j :| 0 <= j <= n && Approx(m, rho, x, b, start, j) == Approx(m, rho, x, b, start, j + 1);
      ApproxStable(m, rho, x, b, start, j, n - j);
      ApproxStable(m, rho, x, b, start, j, n + 1 - j);
    } else if least {
      CountFull(an);
      SubsetAntisymmetric(an, an1);
    } else {
      CountEmpty(an);
      SubsetAntisymmetric(an, an1);
    }
  }

  /** `Mu x. b` denotes a fixpoint of its body, below every pre-fixpoint:
      the least fixpoint. */
  lemma {:induction false} MuIsLeastFixpoint(m: Lts, rho: Env, x: nat, b: Formula)
    requires LtsWf(m) && EnvWf(m, rho)
    ensures var v := Sem(m, rho, Mu(x, b));
            && Body(m, rho, x, b, v) == v
            && forall p :: |p| == m.nrOfStates && Subset(Body(m, rho, x, b, p), p) ==> Subset(v, p)
  {
    ApproxConverges(m, rho, x, b, true);
    forall p | |p| == m.nrOfStates && Subset(Body(m, rho, x, b, p), p)
      ensures Subset(Sem(m, rho, Mu(x, b)), p)
    {
      ApproxBelow(m, rho, x, b, p, m.nrOfStates);
    }
  }

  lemma {:induction false} ApproxBelow(m: Lts, rho: Env, x: nat, b: Formula, p: StateSet, k: nat)
    requires LtsWf(m) && EnvWf(m, rho) && |p| == m.nrOfStates
    requires Subset(Body(m, rho, x, b, p), p)
    ensures Subset(Approx(m, rho, x, b, Uniform(m.nrOfStates, false), k), p)
  {
    if k > 0 {
      ApproxBelow(m, rho, x, b, p, k - 1);
      BodyMonotone(m, rho, x, b, Approx(m, rho, x, b, Uniform(m.nrOfStates, false), k - 1), p);
    }
  }

  /** `Nu x. b` denotes a fixpoint of its body, above every post-fixpoint:
      the greatest fixpoint. */
  lemma {:induction false} NuIsGreatestFixpoint(m: Lts, rho: Env, x: nat, b: Formula)
    requires LtsWf(m) && EnvWf(m, rho)
    ensures var v := Sem(m, rho, Nu(x, b));
            && Body(m, rho, x, b, v) == v
            && forall p :: |p| == m.nrOfStates && Subset(p, Body(m, rho, x, b, p)) ==> Subset(p, v)
  {
    ApproxConverges(m, rho, x, b, false);
    forall p | |p| == m.nrOfStates && Subset(p, Body(m, rho, x, b, p))
      ensures Subset(p, Sem(m, rho, Nu(x, b)))
    {
      ApproxAbove(m, rho, x, b, p, m.nrOfStates);
    }
  }

  lemma {:induction false} ApproxAbove(m: Lts, rho: Env, x: nat, b: Formula, p: StateSet, k: nat)
    requires LtsWf(m) && EnvWf(m, rho) && |p| == m.nrOfStates
    requires Subset(p, Body(m, rho, x, b, p))
    ensures Subset(p, Approx(m, rho, x, b, Uniform(m.nrOfStates, true), k))
  {
    if k > 0 {
      ApproxAbove(m, rho, x, b, p, k - 1);
      BodyMonotone(m, rho, x, b, p, Approx(m, rho, x, b, Uniform(m.nrOfStates, true), k - 1));
    }
  }

  /** An approximant that the body leaves unchanged is the fixpoint the
      binder denotes: the fixpoint loop may stop at the first such round. */
  lemma {:induction false} StableApproxIsSem(m: Lts, rho: Env, x: nat, b: Formula, least: bool, k: nat)
    requires LtsWf(m) && EnvWf(m, rho)
    requires var y := Approx(m, rho, x, b, Uniform(m.nrOfStates, !least), k);
             Body(m, rho, x, b, y) == y
    ensures Approx(m, rho, x, b, Uniform(m.nrOfStates, !least), k)
            == Sem(m, rho, if least then Mu(x, b) else Nu(x, b))
  {
    var n := m.nrOfStates;
    var start := Uniform(n, !least);
    ApproxConverges(m, rho, x, b, least);
    if k <= n {
      ApproxStable(m, rho, x, b, start, k, n - k);
    } else {
      ApproxStable(m, rho, x, b, start, n, k - n);
    }
  }

  // ---------------------------------------------------------------------
  // Only free variables matter

  predicate AgreeOn(rho1: Env, rho2: Env, vs: set<nat>) {
    forall v :: v in vs ==> (v in rho1 <==> v in rho2) && (v in rho1 ==> rho1[v] == rho2[v])
  }

  lemma {:induction false} SemFreeVars(m: Lts, rho1: Env, rho2: Env, f: Formula)
    requires LtsWf(m) && EnvWf(m, rho1) && EnvWf(m, rho2) && AgreeOn(rho1, rho2, FreeVars(f))
    ensures Sem(m, rho1, f) == Sem(m, rho2, f)
    decreases f, 0, 0
  {
    var n := m.nrOfStates;
    match f
    case FFalse =>
    case FTrue =>
    case Var(x) =>
    case Mu(x, b) =>
      ApproxFreeVars(m, rho1, rho2, x, b, Uniform(n, false), n);
    case Nu(x, b) =>
      ApproxFreeVars(m, rho1, rho2, x, b, Uniform(n, true), n);
    case And(l, r) =>
      SemFreeVars(m, rho1, rho2, l);
      SemFreeVars(m, rho1, rho2, r);
    case Or(l, r) =>
      SemFreeVars(m, rho1, rho2, l);
      SemFreeVars(m, rho1, rho2, r);
    case Diamond(a, b) =>
      SemFreeVars(m, rho1, rho2, b);
    case Box(a, b) =>
      SemFreeVars(m, rho1, rho2, b);
  }

  lemma {:induction false} ApproxFreeVars(m: Lts, rho1: Env, rho2: Env, x: nat, b: Formula, start: StateSet, k: nat)
    requires LtsWf(m) && EnvWf(m, rho1) && EnvWf(m, rho2) && |start| == m.nrOfStates
    requires AgreeOn(rho1, rho2, FreeVars(b) - {x})
    ensures Approx(m, rho1, x, b, start, k) == Approx(m, rho2, x, b, start, k)
    decreases b, 1, k
  {
    if k > 0 {
      ApproxFreeVars(m, rho1, rho2, x, b, start, k - 1);
      var y := Approx(m, rho1, x, b, start, k - 1);
      SemFreeVars(m, rho1[x := y], rho2[x := y], b);
    }
  }
}
