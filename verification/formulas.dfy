/** The parsed formula tree (formula.h:9-23). The tree comes from the
    formula parser, which is not part of this model; Diamond and Box carry
    the raw label text, binders and variables a variable name. */
module Formulas {

  datatype Formula =
    | FFalse
    | FTrue
    | Var(x: nat)
    | Mu(x: nat, body: Formula)
    | Nu(x: nat, body: Formula)
    | And(left: Formula, right: Formula)
    | Or(left: Formula, right: Formula)
    | Diamond(act: string, body: Formula)
    | Box(act: string, body: Formula)

  /** Node type codes, in the order of the `FormulaType` enum (the C code
      relies on it in mc.c:172-179 and indexes `evalcount[9]` by it). */
  const TFalse: nat := 0
  const TTrue: nat := 1
  const TVar: nat := 2
  const TMu: nat := 3
  const TNu: nat := 4
  const TAnd: nat := 5
  const TOr: nat := 6
  const TDiamond: nat := 7
  const TBracket: nat := 8
  const NrOfTypes: nat := 9

  /** The node type code. The type tests of mc.c:173-179 classify nodes by
      shape: `isnode` holds exactly when the node has a first child `f`,
      `isbinop` when it also has a second child `g`; `isvar` covers
      variables and binders, `isconst` the leaves without a variable, `isop`
      the operators that get their own set. */
  function Type(f: Formula): (t: nat)
    ensures t < NrOfTypes
    ensures IsConst(t) <==> f.FFalse? || f.FTrue?
    ensures IsVar(t) <==> f.Var? || f.Mu? || f.Nu?
    ensures IsOp(t) <==> f.And? || f.Or? || f.Diamond? || f.Box?
    ensures IsNode(t) <==> HasBody(f) || f.And? || f.Or?
    ensures IsBinop(t) <==> f.And? || f.Or?
    ensures IsBinder(t) <==> f.Mu? || f.Nu?
    ensures IsModal(t) <==> f.Diamond? || f.Box?
  {
    match f
    case FFalse => TFalse
    case FTrue => TTrue
    case Var(_) => TVar
    case Mu(_, _) => TMu
    case Nu(_, _) => TNu
    case And(_, _) => TAnd
    case Or(_, _) => TOr
    case Diamond(_, _) => TDiamond
    case Box(_, _) => TBracket
  }

  // The type tests of mc.c:173-179, on type codes.
  predicate IsConst(t: nat) { t <= TTrue }
  predicate IsVar(t: nat) { TVar <= t <= TNu }
  predicate IsOp(t: nat) { t >= TAnd }
  predicate IsBinop(t: nat) { t == TAnd || t == TOr }
  predicate IsNode(t: nat) { t >= TMu }
  predicate IsBinder(t: nat) { t == TMu || t == TNu }
  predicate IsModal(t: nat) { t == TDiamond || t == TBracket }

  predicate HasBody(f: Formula) {
    f.Mu? || f.Nu? || f.Diamond? || f.Box?
  }

  /** Number of nodes. */
  function Size(f: Formula): (n: nat)
    ensures n >= 1
  {
    match f
    case Mu(_, b) => 1 + Size(b)
    case Nu(_, b) => 1 + Size(b)
    case Diamond(_, b) => 1 + Size(b)
    case Box(_, b) => 1 + Size(b)
    case And(l, r) => 1 + Size(l) + Size(r)
    case Or(l, r) => 1 + Size(l) + Size(r)
    case _ => 1
  }

  /** The subformulas in preorder: node, first child's subtree, second
      child's subtree (the order of `f_preorder`). */
  function Preorder(f: Formula): (p: seq<Formula>)
    ensures |p| == Size(f) && p[0] == f
  {
    match f
    case Mu(_, b) => [f] + Preorder(b)
    case Nu(_, b) => [f] + Preorder(b)
    case Diamond(_, b) => [f] + Preorder(b)
    case Box(_, b) => [f] + Preorder(b)
    case And(l, r) => [f] + Preorder(l) + Preorder(r)
    case Or(l, r) => [f] + Preorder(l) + Preorder(r)
    case _ => [f]
  }

  /** Variables occurring free: the standard definition. */
  function FreeVars(f: Formula): set<nat>
  {
    match f
    case Var(x) => {x}
    case Mu(x, b) => FreeVars(b) - {x}
    case Nu(x, b) => FreeVars(b) - {x}
    case Diamond(_, b) => FreeVars(b)
    case Box(_, b) => FreeVars(b)
    case And(l, r) => FreeVars(l) + FreeVars(r)
    case Or(l, r) => FreeVars(l) + FreeVars(r)
    case _ => {}
  }

  /** The variable of every binder, in preorder. */
  function BinderVars(f: Formula): seq<nat>
  {
    match f
    case Mu(x, b) => [x] + BinderVars(b)
    case Nu(x, b) => [x] + BinderVars(b)
    case Diamond(_, b) => BinderVars(b)
    case Box(_, b) => BinderVars(b)
    case And(l, r) => BinderVars(l) + BinderVars(r)
    case Or(l, r) => BinderVars(l) + BinderVars(r)
    case _ => []
  }

  predicate Closed(f: Formula) {
    FreeVars(f) == {}
  }

  predicate Distinct(s: seq<nat>) {
    forall i, j :: 0 <= i < j < |s| ==> s[i] != s[j]
  }

  /** No variable is bound twice. */
  predicate UniqueBinders(f: Formula) {
    Distinct(BinderVars(f))
  }

  predicate IsBinderOf(g: Formula, v: nat) {
    (g.Mu? || g.Nu?) && g.x == v
  }

  /** The parts of a sequence without repetitions have none, and share no
      element. */
  lemma {:induction false} DistinctSplit(a: seq<nat>, b: seq<nat>)
    requires Distinct(a + b)
    ensures Distinct(a) && Distinct(b) && forall v :: v in a ==> v !in b
  {
    forall i, j | 0 <= i < j < |a|
      ensures a[i] != a[j]
    {
      assert a[i] == (a + b)[i] && a[j] == (a + b)[j];
    }
    forall i, j | 0 <= i < j < |b|
      ensures b[i] != b[j]
    {
      assert b[i] == (a + b)[|a| + i] && b[j] == (a + b)[|a| + j];
    }
    forall i, j | 0 <= i < |a| && 0 <= j < |b|
      ensures a[i] != b[j]
    {
      assert a[i] == (a + b)[i] && b[j] == (a + b)[|a| + j];
    }
  }

  /** Node `i > 0` of a unary node's preorder is node `i - 1` of its body. */
  lemma {:induction false} PreorderBody(f: Formula, i: nat) returns (a: nat)
    requires (f.Mu? || f.Nu? || f.Diamond? || f.Box?) && 0 < i < Size(f)
    ensures a == i - 1 && a < Size(f.body) && Preorder(f)[i] == Preorder(f.body)[a]
  {
    a := i - 1;
    PreorderUnfold(f);
    ConcatAt([f], Preorder(f.body), [], i);
  }

  /** Node `i` of an operator's preorder, for `0 < i <= Size(f.left)`, is
      node `a = i - 1` of its left operand's preorder ... */
  lemma {:induction false} PreorderLeft(f: Formula, i: nat) returns (a: nat)
    requires (f.And? || f.Or?) && 0 < i < 1 + Size(f.left)
    ensures a == i - 1 && a < Size(f.left) && Preorder(f)[i] == Preorder(f.left)[a]
  {
    a := i - 1;
    PreorderUnfold(f);
    assert i < |Preorder(f)|;
    ConcatAt([f], Preorder(f.left), Preorder(f.right), i);
  }

  /** ... and from `1 + Size(f.left)` on, node `a = i - 1 - Size(f.left)` of
      its right operand's. */
  lemma {:induction false} PreorderRight(f: Formula, i: nat) returns (a: nat)
    requires (f.And? || f.Or?) && 1 + Size(f.left) <= i < Size(f)
    ensures a == i - 1 - Size(f.left) && a < Size(f.right) && Preorder(f)[i] == Preorder(f.right)[a]
  {
    a := i - 1 - Size(f.left);
    PreorderUnfold(f);
    ConcatAt([f], Preorder(f.left), Preorder(f.right), i);
  }

  lemma {:induction false} PreorderUnfold(f: Formula)
    ensures (f.Mu? || f.Nu? || f.Diamond? || f.Box?) ==> Preorder(f) == [f] + Preorder(f.body) + []
    ensures (f.And? || f.Or?) ==> Preorder(f) == [f] + Preorder(f.left) + Preorder(f.right)
  {
    if f.Mu? || f.Nu? || f.Diamond? || f.Box? {
      assert [f] + Preorder(f.body) + [] == [f] + Preorder(f.body);
    }
  }

  /** Indexing a concatenation of three sequences past the first element. */
  lemma {:induction false} ConcatAt(a: seq<Formula>, b: seq<Formula>, c: seq<Formula>, i: nat)
    requires |a| == 1 && 0 < i < 1 + |b| + |c|
    ensures i < 1 + |b| ==> (a + b + c)[i] == b[i - 1]
    ensures 1 + |b| <= i ==> (a + b + c)[i] == c[i - 1 - |b|]
  {
  }
  /** Every binder of the preorder binds a variable of `BinderVars`. */
  lemma {:induction false} PreorderBinderVar(f: Formula, i: nat)
    requires i < Size(f) && (Preorder(f)[i].Mu? || Preorder(f)[i].Nu?)
    ensures Preorder(f)[i].x in BinderVars(f)
    decreases f
  {
    if i > 0 {
      if f.Mu? || f.Nu? || f.Diamond? || f.Box? {
        var a := PreorderBody(f, i);
        PreorderBinderVar(f.body, a);
        if f.Mu? || f.Nu? {
          assert BinderVars(f) == [f.x] + BinderVars(f.body);
        } else {
          assert BinderVars(f) == BinderVars(f.body);
        }
      } else if f.And? || f.Or? {
        PreorderBinderVarOperands(f, i);
      }
    }
  }

  lemma {:induction false} PreorderBinderVarOperands(f: Formula, i: nat)
    requires f.And? || f.Or?
    requires 0 < i < Size(f) && (Preorder(f)[i].Mu? || Preorder(f)[i].Nu?)
    ensures Preorder(f)[i].x in BinderVars(f)
    decreases f, 0
  {
    assert BinderVars(f) == BinderVars(f.left) + BinderVars(f.right);
    if i < 1 + Size(f.left) {
      var a := PreorderLeft(f, i);
      PreorderBinderVar(f.left, a);
    } else {
      var a := PreorderRight(f, i);
      PreorderBinderVar(f.right, a);
    }
  }

  /** Without a variable bound twice, each variable has at most one binder
      in the preorder. */
  lemma {:induction false} UniqueBindersPreorder(f: Formula, i: nat, j: nat, v: nat)
    requires UniqueBinders(f) && i < Size(f) && j < Size(f)
    requires IsBinderOf(Preorder(f)[i], v) && IsBinderOf(Preorder(f)[j], v)
    ensures i == j
    decreases f, 2
  {
    if i != j {
      if f.Mu? || f.Nu? || f.Diamond? || f.Box? {
        UniqueBindersUnary(f, i, j, v);
      } else if f.And? || f.Or? {
        UniqueBindersOperands(f, i, j, v);
      }
    }
  }

  lemma {:induction false} UniqueBindersUnary(f: Formula, i: nat, j: nat, v: nat)
    requires f.Mu? || f.Nu? || f.Diamond? || f.Box?
    requires UniqueBinders(f) && i < Size(f) && j < Size(f)
    requires IsBinderOf(Preorder(f)[i], v) && IsBinderOf(Preorder(f)[j], v)
    ensures i == j
    decreases f, 0
  {
    var b := f.body;
    if f.Mu? || f.Nu? {
      assert BinderVars(f) == [f.x] + BinderVars(b);
      DistinctSplit([f.x], BinderVars(b));
    } else {
      assert BinderVars(f) == BinderVars(b);
    }
    if i == j {
    } else if 0 < i && 0 < j {
      var a := PreorderBody(f, i);
      var c := PreorderBody(f, j);
      UniqueBindersPreorder(b, a, c, v);
    } else if 0 < i {
      var a := PreorderBody(f, i);
      PreorderBinderVar(b, a);
    } else if 0 < j {
      var c := PreorderBody(f, j);
      PreorderBinderVar(b, c);
    }
  }

  lemma {:induction false} UniqueBindersOperands(f: Formula, i: nat, j: nat, v: nat)
    requires f.And? || f.Or?
    requires UniqueBinders(f) && i < Size(f) && j < Size(f)
    requires IsBinderOf(Preorder(f)[i], v) && IsBinderOf(Preorder(f)[j], v)
    ensures i == j
    decreases f, 1
  {
    var n := 1 + Size(f.left);
    assert 0 < i && 0 < j;
    UniqueOperands(f);
    if i < n && j < n {
      UniqueBindersLeft(f, i, j, v);
    } else if n <= i && n <= j {
      UniqueBindersRight(f, i, j, v);
    } else if i < n {
      UniqueBindersAcross(f, i, j, v);
    } else {
      UniqueBindersAcross(f, j, i, v);
    }
  }

  lemma {:induction false} UniqueBindersLeft(f: Formula, i: nat, j: nat, v: nat)
    requires f.And? || f.Or?
    requires UniqueBinders(f.left) && 0 < i < 1 + Size(f.left) && 0 < j < 1 + Size(f.left)
    requires IsBinderOf(Preorder(f)[i], v) && IsBinderOf(Preorder(f)[j], v)
    ensures i == j
    decreases f, 0
  {
    var a := PreorderLeft(f, i);
    var b := PreorderLeft(f, j);
    UniqueBindersPreorder(f.left, a, b, v);
  }

  lemma {:induction false} UniqueBindersRight(f: Formula, i: nat, j: nat, v: nat)
    requires f.And? || f.Or?
    requires UniqueBinders(f.right) && 1 + Size(f.left) <= i < Size(f) && 1 + Size(f.left) <= j < Size(f)
    requires IsBinderOf(Preorder(f)[i], v) && IsBinderOf(Preorder(f)[j], v)
    ensures i == j
    decreases f, 0
  {
    var a := PreorderRight(f, i);
    var b := PreorderRight(f, j);
    UniqueBindersPreorder(f.right, a, b, v);
  }

  /** The operands of an operator bind no variable twice ... */
  lemma {:induction false} UniqueOperands(f: Formula)
    requires (f.And? || f.Or?) && UniqueBinders(f)
    ensures UniqueBinders(f.left) && UniqueBinders(f.right)
  {
    assert BinderVars(f) == BinderVars(f.left) + BinderVars(f.right);
    DistinctSplit(BinderVars(f.left), BinderVars(f.right));
  }

  /** ... and bind no variable in both. */
  lemma {:induction false} DisjointOperands(f: Formula)
    requires (f.And? || f.Or?) && UniqueBinders(f)
    ensures forall v :: v in BinderVars(f.left) ==> v !in BinderVars(f.right)
  {
    assert BinderVars(f) == BinderVars(f.left) + BinderVars(f.right);
    DistinctSplit(BinderVars(f.left), BinderVars(f.right));
  }

  /** A binder in the left operand and one in the right bind different
      variables. */
  lemma {:induction false} UniqueBindersAcross(f: Formula, i: nat, j: nat, v: nat)
    requires f.And? || f.Or?
    requires UniqueBinders(f) && 0 < i < 1 + Size(f.left) <= j < Size(f)
    requires IsBinderOf(Preorder(f)[i], v)
    ensures !IsBinderOf(Preorder(f)[j], v)
    decreases f, 0
  {
    var a := PreorderLeft(f, i);
    PreorderBinderVar(f.left, a);
    DisjointOperands(f);
    if IsBinderOf(Preorder(f)[j], v) {
      var b := PreorderRight(f, j);
      PreorderBinderVar(f.right, b);
    }
  }
}
