/** The flattened formula (mc.c:167-236): nodes in preorder with their
    subtree ranges, surrounding binder type, label id, the binder a
    variable shares its set with, and the free-variable dependencies.

    `f_init_preorder` and the loop of `f_init` each visit the nodes in
    preorder; `BuildAt` does both in one preorder recursion, so labels are
    interned in the same order. Variables are resolved to their lexically
    enclosing binder; the global table of the C code is `ResolveAsWritten`,
    which differs when a variable is bound twice (`GlobalTableShadows`). */
module Arena {
  import opened Formulas
  import Labels

  datatype Node = Node(
    kind: nat,         // type code
    x: nat,            // variable of a binder or variable node
    l: nat,            // label id of a Diamond/Box node
    childBegin: nat,
    childEnd: nat,
    surrounding: nat,  // type of the nearest enclosing binder, 0 if none
    binder: nat,       // a variable node's binder
    deps: set<nat>,
    nrOfDeps: nat)

  function VarOf(f: Formula): nat {
    match f
    case Var(x) => x
    case Mu(x, _) => x
    case Nu(x, _) => x
    case _ => 0
  }

  // ---------------------------------------------------------------------
  // f_deps

  /** `f_deps` (mc.c:195-208): walks the subtree with the set of variables
      bound on the way down, and records each free occurrence. Returns the
      `deps` set and the occurrence count `nr_of_deps`. */
  function DepsWalk(f: Formula, bindings: set<nat>): (r: (set<nat>, nat))
  {
    match f
    case Mu(x, b) => DepsWalk(b, bindings + {x})
    case Nu(x, b) => DepsWalk(b, bindings + {x})
    case Var(x) => if x !in bindings then ({x}, 1) else ({}, 0)
    case Diamond(_, b) => DepsWalk(b, bindings)
    case Box(_, b) => DepsWalk(b, bindings)
    case And(l, r) =>
      var (dl, nl) := DepsWalk(l, bindings);
      var (dr, nr) := DepsWalk(r, bindings);
      (dl + dr, nl + nr)
    case Or(l, r) =>
      var (dl, nr) := DepsWalk(l, bindings);
      var (dr, nr') := DepsWalk(r, bindings);
      (dl + dr, nr + nr')
    case _ => ({}, 0)
  }

  /** The walk finds exactly the free variables not yet bound, and counts
      zero occurrences exactly when there are none. */
  lemma {:induction false} DepsWalkFreeVars(f: Formula, bindings: set<nat>)
    ensures DepsWalk(f, bindings).0 == FreeVars(f) - bindings
    ensures DepsWalk(f, bindings).1 == 0 <==> FreeVars(f) - bindings == {}
  {
    match f
    case Mu(x, b) =>
      DepsWalkFreeVars(b, bindings + {x});
      assert FreeVars(b) - (bindings + {x}) == (FreeVars(b) - {x}) - bindings;
    case Nu(x, b) =>
      DepsWalkFreeVars(b, bindings + {x});
      assert FreeVars(b) - (bindings + {x}) == (FreeVars(b) - {x}) - bindings;
    case Var(x) =>
    case Diamond(_, b) => DepsWalkFreeVars(b, bindings);
    case Box(_, b) => DepsWalkFreeVars(b, bindings);
    case And(l, r) =>
      DepsWalkFreeVars(l, bindings);
      DepsWalkFreeVars(r, bindings);
    case Or(l, r) =>
      DepsWalkFreeVars(l, bindings);
      DepsWalkFreeVars(r, bindings);
    case FFalse =>
    case FTrue =>
  }

  // ---------------------------------------------------------------------
  // Building the arena

  /** The label id of a modal node, interned into `tbl` (mc.c:221-222)
      with the corrected `Labels.Intern`, which agrees with `label_id` as
      written whenever no label is empty (`Labels.LabelIdAsWrittenAgrees`). */
  function LabelStep(f: Formula, tbl: seq<string>): (r: (nat, seq<string>))
  {
    if f.Diamond? || f.Box? then Labels.Intern(tbl, f.act) else (0, tbl)
  }

  /** The node `f_init_preorder` and `f_init` make for the root of `f`. */
  function HeadNode(f: Formula, k: nat, sb: nat, scope: map<nat, nat>, l: nat): Node
  {
    var (deps, nr) := DepsWalk(f, {});
    Node(Type(f), VarOf(f), l, k + 1, k + Size(f), sb,
         if f.Var? && f.x in scope then scope[f.x] else 0, deps, nr)
  }

  /** `acc` extended with the nodes of `f`, which start at index `|acc|`
      (the running `count` of `f_init_preorder`); `sb` is the type of the
      nearest enclosing binder and `scope` the binder index of each
      variable in scope; `tbl` is the label table, returned grown. */
  function BuildAt(f: Formula, acc: seq<Node>, sb: nat, scope: map<nat, nat>, tbl: seq<string>)
    : (r: (seq<Node>, seq<string>))
    ensures |r.0| == |acc| + Size(f)
    ensures tbl <= r.1
    decreases f
  {
    var k := |acc|;
    var lt := LabelStep(f, tbl);
    var node := HeadNode(f, k, sb, scope, lt.0);
    match f
    case Mu(x, b) => BuildAt(b, acc + [node], TMu, scope[x := k], lt.1)
    case Nu(x, b) => BuildAt(b, acc + [node], TNu, scope[x := k], lt.1)
    case Diamond(_, b) => BuildAt(b, acc + [node], sb, scope, lt.1)
    case Box(_, b) => BuildAt(b, acc + [node], sb, scope, lt.1)
    case And(lf, rf) =>
      var ln := BuildAt(lf, acc + [node], sb, scope, lt.1);
      BuildAt(rf, ln.0, sb, scope, ln.1)
    case Or(lf, rf) =>
      var ln := BuildAt(lf, acc + [node], sb, scope, lt.1);
      BuildAt(rf, ln.0, sb, scope, ln.1)
    case _ => (acc + [node], lt.1)
  }

  /** Interning the formula's labels keeps the names unique. */
  lemma {:induction false} BuildAtNoRepeats(f: Formula, acc: seq<Node>, sb: nat, scope: map<nat, nat>, tbl: seq<string>)
    requires Labels.NoRepeats(tbl)
    ensures Labels.NoRepeats(BuildAt(f, acc, sb, scope, tbl).1)
    decreases f
  {
    var lt := LabelStep(f, tbl);
    var node := HeadNode(f, |acc|, sb, scope, lt.0);
    if f.Diamond? || f.Box? {
      Labels.InternNoRepeats(tbl, f.act);
    }
    match f
    case Mu(x, b) => BuildAtNoRepeats(b, acc + [node], TMu, scope[x := |acc|], lt.1);
    case Nu(x, b) => BuildAtNoRepeats(b, acc + [node], TNu, scope[x := |acc|], lt.1);
    case Diamond(_, b) => BuildAtNoRepeats(b, acc + [node], sb, scope, lt.1);
    case Box(_, b) => BuildAtNoRepeats(b, acc + [node], sb, scope, lt.1);
    case And(lf, rf) =>
      var ln := BuildAt(lf, acc + [node], sb, scope, lt.1);
      BuildAtNoRepeats(lf, acc + [node], sb, scope, lt.1);
      BuildAtNoRepeats(rf, ln.0, sb, scope, ln.1);
    case Or(lf, rf) =>
      var ln := BuildAt(lf, acc + [node], sb, scope, lt.1);
      BuildAtNoRepeats(lf, acc + [node], sb, scope, lt.1);
      BuildAtNoRepeats(rf, ln.0, sb, scope, ln.1);
    case _ =>
  }

  /** `f_init` (mc.c:210-236) on a closed formula, with the label table
      left by `read_lts`. */
  function Build(f: Formula, tbl: seq<string>): (r: (seq<Node>, seq<string>))
    requires Closed(f)
    ensures |r.0| == Size(f) && tbl <= r.1
  {
    BuildAt(f, [], 0, map[], tbl)
  }

  // ---------------------------------------------------------------------
  // The arena represents the tree

  /** `nodes` holds `f` from index `k` on: type, subtree range, surrounding
      binder, dependencies, label and binder of each node agree with the
      tree, and the ranges nest as the tree does. */
  predicate Lays(nodes: seq<Node>, k: nat, f: Formula, sb: nat, scope: map<nat, nat>, tbl: seq<string>)
    decreases f
  {
    && k + Size(f) <= |nodes|
    && var n := nodes[k];
    && n.kind == Type(f) && n.childBegin == k + 1 && n.childEnd == k + Size(f) && n.surrounding == sb
    && n.deps == FreeVars(f) && (n.nrOfDeps == 0 <==> FreeVars(f) == {})
    && match f
       case Var(x) => n.x == x && x in scope && n.binder == scope[x]
       case Mu(x, b) => n.x == x && Lays(nodes, k + 1, b, TMu, scope[x := k], tbl)
       case Nu(x, b) => n.x == x && Lays(nodes, k + 1, b, TNu, scope[x := k], tbl)
       case Diamond(a, b) => n.l < |tbl| && tbl[n.l] == a && Lays(nodes, k + 1, b, sb, scope, tbl)
       case Box(a, b) => n.l < |tbl| && tbl[n.l] == a && Lays(nodes, k + 1, b, sb, scope, tbl)
       case And(lf, rf) => Lays(nodes, k + 1, lf, sb, scope, tbl) && Lays(nodes, k + 1 + Size(lf), rf, sb, scope, tbl)
       case Or(lf, rf) => Lays(nodes, k + 1, lf, sb, scope, tbl) && Lays(nodes, k + 1 + Size(lf), rf, sb, scope, tbl)
       case _ => true
  }

  /** `Lays` only looks at the nodes of the subtree and at the labels it
      uses, so it survives appending nodes and labels. */
  lemma {:induction false} LaysMono(nodes: seq<Node>, nodes': seq<Node>, k: nat, f: Formula, sb: nat,
                                   scope: map<nat, nat>, tbl: seq<string>, tbl': seq<string>)
    requires Lays(nodes, k, f, sb, scope, tbl) && nodes <= nodes' && tbl <= tbl'
    ensures Lays(nodes', k, f, sb, scope, tbl')
    decreases f, 1
  {
    assert nodes'[k] == nodes[k];
    if f.Mu? || f.Nu? {
      LaysMonoBinder(nodes, nodes', k, f, sb, scope, tbl, tbl');
    } else if f.Diamond? || f.Box? {
      LaysMonoModal(nodes, nodes', k, f, sb, scope, tbl, tbl');
    } else if f.And? || f.Or? {
      LaysMonoOperands(nodes, nodes', k, f, sb, scope, tbl, tbl');
    }
  }

  lemma {:induction false} LaysMonoBinder(nodes: seq<Node>, nodes': seq<Node>, k: nat, f: Formula, sb: nat,
                                         scope: map<nat, nat>, tbl: seq<string>, tbl': seq<string>)
    requires Lays(nodes, k, f, sb, scope, tbl) && nodes <= nodes' && tbl <= tbl' && (f.Mu? || f.Nu?)
    ensures Lays(nodes', k, f, sb, scope, tbl')
    decreases f, 0
  {
    assert nodes'[k] == nodes[k];
    LaysMono(nodes, nodes', k + 1, f.body, Type(f), scope[f.x := k], tbl, tbl');
  }

  lemma {:induction false} LaysMonoModal(nodes: seq<Node>, nodes': seq<Node>, k: nat, f: Formula, sb: nat,
                                        scope: map<nat, nat>, tbl: seq<string>, tbl': seq<string>)
    requires Lays(nodes, k, f, sb, scope, tbl) && nodes <= nodes' && tbl <= tbl' && (f.Diamond? || f.Box?)
    ensures Lays(nodes', k, f, sb, scope, tbl')
    decreases f, 0
  {
    assert nodes'[k] == nodes[k];
    assert tbl'[nodes[k].l] == tbl[nodes[k].l];
    LaysMono(nodes, nodes', k + 1, f.body, sb, scope, tbl, tbl');
  }

  lemma {:induction false} LaysMonoOperands(nodes: seq<Node>, nodes': seq<Node>, k: nat, f: Formula, sb: nat,
                                           scope: map<nat, nat>, tbl: seq<string>, tbl': seq<string>)
    requires Lays(nodes, k, f, sb, scope, tbl) && nodes <= nodes' && tbl <= tbl' && (f.And? || f.Or?)
    ensures Lays(nodes', k, f, sb, scope, tbl')
    decreases f, 0
  {
    assert nodes'[k] == nodes[k];
    LaysMono(nodes, nodes', k + 1, f.left, sb, scope, tbl, tbl');
    LaysMono(nodes, nodes', k + 1 + Size(f.left), f.right, sb, scope, tbl, tbl');
  }

  /** `BuildAt` only appends. */
  lemma {:induction false} BuildAtExtends(f: Formula, acc: seq<Node>, sb: nat, scope: map<nat, nat>, tbl: seq<string>)
    ensures acc <= BuildAt(f, acc, sb, scope, tbl).0
    decreases f
  {
    var k := |acc|;
    var lt := LabelStep(f, tbl);
    var node := HeadNode(f, k, sb, scope, lt.0);
    assert acc <= acc + [node];
    match f
    case Mu(x, b) => BuildAtExtends(b, acc + [node], TMu, scope[x := k], lt.1);
    case Nu(x, b) => BuildAtExtends(b, acc + [node], TNu, scope[x := k], lt.1);
    case Diamond(_, b) => BuildAtExtends(b, acc + [node], sb, scope, lt.1);
    case Box(_, b) => BuildAtExtends(b, acc + [node], sb, scope, lt.1);
    case And(lf, rf) =>
      var ln := BuildAt(lf, acc + [node], sb, scope, lt.1);
      BuildAtExtends(lf, acc + [node], sb, scope, lt.1);
      BuildAtExtends(rf, ln.0, sb, scope, ln.1);
    case Or(lf, rf) =>
      var ln := BuildAt(lf, acc + [node], sb, scope, lt.1);
      BuildAtExtends(lf, acc + [node], sb, scope, lt.1);
      BuildAtExtends(rf, ln.0, sb, scope, ln.1);
    case Var(_) =>
    case FFalse =>
    case FTrue =>
  }

  /** The root node `BuildAt` appends describes `f`. */
  lemma {:induction false} BuildAtHead(f: Formula, acc: seq<Node>, sb: nat, scope: map<nat, nat>, tbl: seq<string>)
    ensures var r := BuildAt(f, acc, sb, scope, tbl);
            var n := r.0[|acc|];
            && n.kind == Type(f) && n.childBegin == |acc| + 1 && n.childEnd == |acc| + Size(f) && n.surrounding == sb
            && n.deps == FreeVars(f) && (n.nrOfDeps == 0 <==> FreeVars(f) == {})
            && n.x == VarOf(f)
            && (f.Var? && f.x in scope ==> n.binder == scope[f.x])
            && (f.Diamond? || f.Box? ==> n.l < |r.1| && r.1[n.l] == f.act)
  {
    DepsWalkFreeVars(f, {});
    var lt := LabelStep(f, tbl);
    var node := HeadNode(f, |acc|, sb, scope, lt.0);
    var r := BuildAt(f, acc, sb, scope, tbl);
    assert acc + [node] <= r.0 && lt.1 <= r.1 by {
      match f
      case Mu(x, b) => BuildAtExtends(b, acc + [node], TMu, scope[x := |acc|], lt.1);
      case Nu(x, b) => BuildAtExtends(b, acc + [node], TNu, scope[x := |acc|], lt.1);
      case Diamond(_, b) => BuildAtExtends(b, acc + [node], sb, scope, lt.1);
      case Box(_, b) => BuildAtExtends(b, acc + [node], sb, scope, lt.1);
      case And(lf, rf) =>
        var ln := BuildAt(lf, acc + [node], sb, scope, lt.1);
        BuildAtExtends(lf, acc + [node], sb, scope, lt.1);
        BuildAtExtends(rf, ln.0, sb, scope, ln.1);
      case Or(lf, rf) =>
        var ln := BuildAt(lf, acc + [node], sb, scope, lt.1);
        BuildAtExtends(lf, acc + [node], sb, scope, lt.1);
        BuildAtExtends(rf, ln.0, sb, scope, ln.1);
      case _ =>
    }
    assert r.0[|acc|] == (acc + [node])[|acc|];
  }

  /** What `BuildAt` appends satisfies `Lays`. */
  lemma {:induction false} BuildAtLays(f: Formula, acc: seq<Node>, sb: nat, scope: map<nat, nat>, tbl: seq<string>)
    requires FreeVars(f) <= scope.Keys
    ensures var r := BuildAt(f, acc, sb, scope, tbl);
            Lays(r.0, |acc|, f, sb, scope, r.1)
    decreases f, 2
  {
    BuildAtHead(f, acc, sb, scope, tbl);
    if f.Mu? || f.Nu? || f.Diamond? || f.Box? {
      BuildAtLaysUnary(f, acc, sb, scope, tbl);
    } else if f.And? || f.Or? {
      BuildAtLaysBinop(f, acc, sb, scope, tbl);
    }
  }

  /** The head facts of `Lays`, for the root node alone. */
  predicate HeadLays(nodes: seq<Node>, k: nat, f: Formula, sb: nat, scope: map<nat, nat>, tbl: seq<string>) {
    && k + Size(f) <= |nodes|
    && var n := nodes[k];
    && n.kind == Type(f) && n.childBegin == k + 1 && n.childEnd == k + Size(f) && n.surrounding == sb
    && n.deps == FreeVars(f) && (n.nrOfDeps == 0 <==> FreeVars(f) == {})
    && n.x == VarOf(f)
    && (f.Var? ==> f.x in scope && n.binder == scope[f.x])
    && (f.Diamond? || f.Box? ==> n.l < |tbl| && tbl[n.l] == f.act)
  }

  lemma {:induction false} BuildAtHeadLays(f: Formula, acc: seq<Node>, sb: nat, scope: map<nat, nat>, tbl: seq<string>)
    requires FreeVars(f) <= scope.Keys
    ensures var r := BuildAt(f, acc, sb, scope, tbl);
            HeadLays(r.0, |acc|, f, sb, scope, r.1)
  {
    BuildAtHead(f, acc, sb, scope, tbl);
  }

  lemma {:induction false} LaysUnaryIntro(nodes: seq<Node>, k: nat, f: Formula, sb: nat, scope: map<nat, nat>, tbl: seq<string>)
    requires f.Mu? || f.Nu? || f.Diamond? || f.Box?
    requires HeadLays(nodes, k, f, sb, scope, tbl)
    requires Lays(nodes, k + 1, f.body, if f.Mu? then TMu else if f.Nu? then TNu else sb,
                  if f.Mu? || f.Nu? then scope[f.x := k] else scope, tbl)
    ensures Lays(nodes, k, f, sb, scope, tbl)
  {
  }

  lemma {:induction false} LaysBinopIntro(nodes: seq<Node>, k: nat, j: nat, f: Formula, sb: nat, scope: map<nat, nat>, tbl: seq<string>)
    requires f.And? || f.Or?
    requires HeadLays(nodes, k, f, sb, scope, tbl)
    requires Lays(nodes, k + 1, f.left, sb, scope, tbl)
    requires j == k + 1 + Size(f.left) && Lays(nodes, j, f.right, sb, scope, tbl)
    ensures Lays(nodes, k, f, sb, scope, tbl)
  {
  }

  lemma {:induction false} BuildAtLaysUnary(f: Formula, acc: seq<Node>, sb: nat, scope: map<nat, nat>, tbl: seq<string>)
    requires FreeVars(f) <= scope.Keys
    requires f.Mu? || f.Nu? || f.Diamond? || f.Box?
    ensures var r := BuildAt(f, acc, sb, scope, tbl);
            Lays(r.0, |acc|, f, sb, scope, r.1)
    decreases f, 0
  {
    var k := |acc|;
    var r := BuildAt(f, acc, sb, scope, tbl);
    var lt := LabelStep(f, tbl);
    var node := HeadNode(f, k, sb, scope, lt.0);
    var sb' := if f.Mu? then TMu else if f.Nu? then TNu else sb;
    var scope' := if f.Mu? || f.Nu? then scope[f.x := k] else scope;
    assert Lays(r.0, k + 1, f.body, sb', scope', r.1) by {
      assert r == BuildAt(f.body, acc + [node], sb', scope', lt.1);
      BuildAtLays(f.body, acc + [node], sb', scope', lt.1);
    }
    BuildAtHeadLays(f, acc, sb, scope, tbl);
    LaysUnaryIntro(r.0, k, f, sb, scope, r.1);
  }

  lemma {:induction false} BinopSplit(f: Formula, acc: seq<Node>, sb: nat, scope: map<nat, nat>, tbl: seq<string>)
    requires f.And? || f.Or?
    ensures var ln := BuildAt(f.left, acc + [HeadNode(f, |acc|, sb, scope, 0)], sb, scope, tbl);
            BuildAt(f, acc, sb, scope, tbl) == BuildAt(f.right, ln.0, sb, scope, ln.1)
  {
  }

  lemma {:induction false} BuildAtLaysBinop(f: Formula, acc: seq<Node>, sb: nat, scope: map<nat, nat>, tbl: seq<string>)
    requires FreeVars(f) <= scope.Keys
    requires f.And? || f.Or?
    ensures var r := BuildAt(f, acc, sb, scope, tbl);
            Lays(r.0, |acc|, f, sb, scope, r.1)
    decreases f, 1
  {
    var k := |acc|;
    var ln := BuildAt(f.left, acc + [HeadNode(f, k, sb, scope, 0)], sb, scope, tbl);
    var rn := BuildAt(f.right, ln.0, sb, scope, ln.1);
    BuildAtLaysLeft(f, acc, sb, scope, tbl);
    BuildAtLaysRight(f, acc, sb, scope, tbl);
    assert BuildAt(f, acc, sb, scope, tbl) == rn by {
      BinopSplit(f, acc, sb, scope, tbl);
    }
    assert HeadLays(rn.0, k, f, sb, scope, rn.1) by {
      BuildAtHeadLays(f, acc, sb, scope, tbl);
    }
    LaysBinopIntro(rn.0, k, |ln.0|, f, sb, scope, rn.1);
  }

  lemma {:induction false} BuildAtLaysLeft(f: Formula, acc: seq<Node>, sb: nat, scope: map<nat, nat>, tbl: seq<string>)
    requires FreeVars(f) <= scope.Keys
    requires f.And? || f.Or?
    ensures var ln := BuildAt(f.left, acc + [HeadNode(f, |acc|, sb, scope, 0)], sb, scope, tbl);
            var rn := BuildAt(f.right, ln.0, sb, scope, ln.1);
            Lays(rn.0, |acc| + 1, f.left, sb, scope, rn.1)
    decreases f, 0
  {
    var node := HeadNode(f, |acc|, sb, scope, 0);
    var ln := BuildAt(f.left, acc + [node], sb, scope, tbl);
    var rn := BuildAt(f.right, ln.0, sb, scope, ln.1);
    BuildAtLays(f.left, acc + [node], sb, scope, tbl);
    BuildAtExtends(f.right, ln.0, sb, scope, ln.1);
    LaysMono(ln.0, rn.0, |acc| + 1, f.left, sb, scope, ln.1, rn.1);
  }

  lemma {:induction false} BuildAtLaysRight(f: Formula, acc: seq<Node>, sb: nat, scope: map<nat, nat>, tbl: seq<string>)
    requires FreeVars(f) <= scope.Keys
    requires f.And? || f.Or?
    ensures var ln := BuildAt(f.left, acc + [HeadNode(f, |acc|, sb, scope, 0)], sb, scope, tbl);
            var rn := BuildAt(f.right, ln.0, sb, scope, ln.1);
            Lays(rn.0, |ln.0|, f.right, sb, scope, rn.1)
    decreases f, 0
  {
    var node := HeadNode(f, |acc|, sb, scope, 0);
    var ln := BuildAt(f.left, acc + [node], sb, scope, tbl);
    BuildAtLays(f.right, ln.0, sb, scope, ln.1);
  }

  /** The arena of a closed formula represents it. */
  lemma {:induction false} BuildLays(f: Formula, tbl: seq<string>)
    requires Closed(f)
    ensures var (nodes, tbl') := Build(f, tbl);
            Lays(nodes, 0, f, 0, map[], tbl')
  {
    BuildAtLays(f, [], 0, map[], tbl);
  }

  // ---------------------------------------------------------------------
  // Well-formed arenas

  /** The local shape facts of node `k` the evaluator relies on: the first
      child follows the node, the second child starts where the first
      one's range ends, both ranges end inside the parent's, and a
      variable's binder is an earlier binder node. */
  predicate NodeWf(nodes: seq<Node>, k: nat)
    requires k < |nodes|
  {
    var n := nodes[k];
    && n.kind < NrOfTypes && n.childBegin == k + 1 && k < n.childEnd <= |nodes|
    && (IsNode(n.kind) ==> k + 1 < n.childEnd && nodes[k + 1].childEnd <= n.childEnd)
    && (!IsNode(n.kind) ==> n.childEnd == k + 1)
    && (IsBinop(n.kind) ==> nodes[k + 1].childEnd < n.childEnd && nodes[nodes[k + 1].childEnd].childEnd == n.childEnd)
    && (n.kind == TVar ==> n.binder < k && IsBinder(nodes[n.binder].kind))
  }

  predicate ArenaWf(nodes: seq<Node>) {
    forall k :: 0 <= k < |nodes| ==> NodeWf(nodes, k)
  }

  /** Every variable in scope is bound by an earlier binder node. */
  predicate ScopeOk(nodes: seq<Node>, scope: map<nat, nat>, k: nat) {
    forall v :: v in scope ==> scope[v] < k && scope[v] < |nodes| && IsBinder(nodes[scope[v]].kind)
  }

  lemma {:induction false} LaysChildEnd(nodes: seq<Node>, k: nat, f: Formula, sb: nat, scope: map<nat, nat>, tbl: seq<string>)
    requires Lays(nodes, k, f, sb, scope, tbl)
    ensures k < |nodes| && nodes[k].childEnd == k + Size(f) && nodes[k].kind == Type(f)
  {
  }

  /** The root of a laid-out tree is a well-formed node. */
  lemma {:induction false} LaysHeadWf(nodes: seq<Node>, k: nat, f: Formula, sb: nat, scope: map<nat, nat>, tbl: seq<string>)
    requires Lays(nodes, k, f, sb, scope, tbl) && ScopeOk(nodes, scope, k)
    ensures k < |nodes| && NodeWf(nodes, k)
  {
    match f
    case Mu(x, b) => LaysChildEnd(nodes, k + 1, b, TMu, scope[x := k], tbl);
    case Nu(x, b) => LaysChildEnd(nodes, k + 1, b, TNu, scope[x := k], tbl);
    case Diamond(_, b) => LaysChildEnd(nodes, k + 1, b, sb, scope, tbl);
    case Box(_, b) => LaysChildEnd(nodes, k + 1, b, sb, scope, tbl);
    case And(lf, rf) =>
      var j := k + 1 + Size(lf);
      LaysChildEnd(nodes, k + 1, lf, sb, scope, tbl);
      LaysChildEnd(nodes, j, rf, sb, scope, tbl);
    case Or(lf, rf) =>
      var j := k + 1 + Size(lf);
      LaysChildEnd(nodes, k + 1, lf, sb, scope, tbl);
      LaysChildEnd(nodes, j, rf, sb, scope, tbl);
    case _ =>
  }

  /** An arena laid out from a tree is well formed over the tree's range. */
  lemma {:induction false} LaysWf(nodes: seq<Node>, k: nat, f: Formula, sb: nat, scope: map<nat, nat>, tbl: seq<string>)
    requires Lays(nodes, k, f, sb, scope, tbl) && ScopeOk(nodes, scope, k)
    ensures forall j :: k <= j < k + Size(f) ==> NodeWf(nodes, j)
    decreases f, 1
  {
    LaysHeadWf(nodes, k, f, sb, scope, tbl);
    if f.Mu? || f.Nu? {
      LaysWfBinder(nodes, k, f, sb, scope, tbl);
    } else if f.Diamond? || f.Box? {
      LaysWfModal(nodes, k, f, sb, scope, tbl);
    } else if f.And? || f.Or? {
      LaysWfOperands(nodes, k, f, sb, scope, tbl);
    }
  }

  lemma {:induction false} LaysWfBinder(nodes: seq<Node>, k: nat, f: Formula, sb: nat, scope: map<nat, nat>, tbl: seq<string>)
    requires Lays(nodes, k, f, sb, scope, tbl) && ScopeOk(nodes, scope, k) && (f.Mu? || f.Nu?)
    ensures forall j :: k <= j < k + Size(f) ==> NodeWf(nodes, j)
    decreases f, 0
  {
    LaysHeadWf(nodes, k, f, sb, scope, tbl);
    LaysWf(nodes, k + 1, f.body, Type(f), scope[f.x := k], tbl);
  }

  lemma {:induction false} LaysWfModal(nodes: seq<Node>, k: nat, f: Formula, sb: nat, scope: map<nat, nat>, tbl: seq<string>)
    requires Lays(nodes, k, f, sb, scope, tbl) && ScopeOk(nodes, scope, k) && (f.Diamond? || f.Box?)
    ensures forall j :: k <= j < k + Size(f) ==> NodeWf(nodes, j)
    decreases f, 0
  {
    LaysHeadWf(nodes, k, f, sb, scope, tbl);
    LaysWf(nodes, k + 1, f.body, sb, scope, tbl);
  }

  lemma {:induction false} LaysWfOperands(nodes: seq<Node>, k: nat, f: Formula, sb: nat, scope: map<nat, nat>, tbl: seq<string>)
    requires Lays(nodes, k, f, sb, scope, tbl) && ScopeOk(nodes, scope, k) && (f.And? || f.Or?)
    ensures forall j :: k <= j < k + Size(f) ==> NodeWf(nodes, j)
    decreases f, 0
  {
    var j := k + 1 + Size(f.left);
    LaysHeadWf(nodes, k, f, sb, scope, tbl);
    LaysWf(nodes, k + 1, f.left, sb, scope, tbl);
    LaysWf(nodes, j, f.right, sb, scope, tbl);
  }

  /** The arena of a closed formula is well formed and represents it. */
  lemma {:induction false} BuildWf(f: Formula, tbl: seq<string>)
    requires Closed(f)
    ensures var (nodes, tbl') := Build(f, tbl);
            Lays(nodes, 0, f, 0, map[], tbl') && ArenaWf(nodes)
  {
    var (nodes, tbl') := Build(f, tbl);
    BuildLays(f, tbl);
    LaysWf(nodes, 0, f, 0, map[], tbl');
  }

  // ---------------------------------------------------------------------
  // The global binder table of the C code

  /** The table `A` (mc.c:168) after the loop of `f_init` has visited the
      first `n` nodes of the preorder `pre` (mc.c:227): every variable
      maps to the last binder of that variable visited so far. */
  function GlobalTable(pre: seq<Formula>, n: nat): (a: map<nat, nat>)
    requires n <= |pre|
    ensures forall v :: v in a ==> a[v] < n && (pre[a[v]].Mu? || pre[a[v]].Nu?) && pre[a[v]].x == v
    ensures forall i :: 0 <= i < n && (pre[i].Mu? || pre[i].Nu?) ==> pre[i].x in a && i <= a[pre[i].x]
  {
    if n == 0 then map[]
    else
      var a := GlobalTable(pre, n - 1);
      var g := pre[n - 1];
      if g.Mu? || g.Nu? then a[g.x := n - 1] else a
  }

  /** The preorder index of the binder whose set the variable node at
      index `j` shares in the C code (mc.c:228-229): whatever `A` held for
      its variable when the loop reached it, or -1 when no binder of that
      variable came earlier (the C code then reads a null pointer). It is
      the latest earlier binder of the variable, not the enclosing one. */
  function ResolveAsWritten(pre: seq<Formula>, j: nat): (b: int)
    requires j < |pre| && pre[j].Var?
    ensures b == -1 <==> forall i :: 0 <= i < j ==> !((pre[i].Mu? || pre[i].Nu?) && pre[i].x == pre[j].x)
    ensures b != -1 ==> 0 <= b < j && (pre[b].Mu? || pre[b].Nu?) && pre[b].x == pre[j].x
    ensures forall i :: 0 <= i < j && (pre[i].Mu? || pre[i].Nu?) && pre[i].x == pre[j].x ==> i <= b
  {
    var a := GlobalTable(pre, j);
    if pre[j].x in a then a[pre[j].x] else -1
  }

  /** `nu X. ((mu X. X) or X)`: the global table resolves the last `X`
      to the inner `mu` (node 2), whose subtree has ended before node 4,
      while the outer `nu` (node 0) is the binder enclosing it. */
  lemma GlobalTableShadows()
    ensures var pre := Preorder(Shadowed());
            && Closed(Shadowed()) && |pre| == 5 && pre[4] == Var(0)
            && ResolveAsWritten(pre, 4) == 2 && 2 + Size(pre[2]) <= 4 && 4 < 0 + Size(pre[0])
  {
    var f := Shadowed();
    ShadowedPreorder();
    var pre := Preorder(f);
    var b := ResolveAsWritten(pre, 4);
    assert pre[2].Mu? && pre[2].x == pre[4].x;
    assert b != 3 by { assert !pre[3].Mu? && !pre[3].Nu?; }
  }

  lemma ShadowedPreorder()
    ensures Preorder(Shadowed()) == [Shadowed(), Shadowed().body, Mu(0, Var(0)), Var(0), Var(0)]
  {
    assert Preorder(Shadowed().body) == [Shadowed().body, Mu(0, Var(0)), Var(0), Var(0)];
  }

  /** The arena resolves the same occurrence to the enclosing `nu`. */
  lemma ShadowedLexical(tbl: seq<string>)
    ensures Build(Shadowed(), tbl).0[4].binder == 0
  {
    var f := Shadowed();
    BuildLays(f, tbl);
    var (nodes, t) := Build(f, tbl);
    assert Lays(nodes, 1, f.body, TNu, map[0 := 0], t);
    assert Lays(nodes, 4, Var(0), TNu, map[0 := 0], t);
  }

  /** Without a variable bound twice the two resolutions agree: the table
      of the C code finds, for every variable node of a closed formula, the
      binder the arena links it to. */
  lemma {:induction false} LexicalIsGlobal(f: Formula, tbl: seq<string>)
    requires Closed(f) && UniqueBinders(f)
    ensures forall j :: 0 <= j < |Preorder(f)| && Preorder(f)[j].Var? ==>
              Build(f, tbl).0[j].binder == ResolveAsWritten(Preorder(f), j)
  {
    var nodes := Build(f, tbl).0;
    var pre := Preorder(f);
    BuildLays(f, tbl);
    LaysPreorder(nodes, 0, f, 0, map[], Build(f, tbl).1);
    forall j | 0 <= j < |pre| && pre[j].Var?
      ensures nodes[j].binder == ResolveAsWritten(pre, j)
    {
      assert NodeMatches(nodes, j, pre[j]);
      var b := nodes[j].binder;
      assert NodeMatches(nodes, b, pre[b]);
      assert IsBinderOf(pre[b], pre[j].x);
      var r := ResolveAsWritten(pre, j);
      UniqueBindersPreorder(f, b, r, pre[j].x);
    }
  }

  /** Node `j` carries the type of the preorder formula `g`, and its
      variable when `g` is a binder; a variable node links to an earlier
      binder of its variable. */
  predicate NodeMatches(nodes: seq<Node>, j: nat, g: Formula) {
    && j < |nodes| && nodes[j].kind == Type(g)
    && ((g.Mu? || g.Nu?) ==> nodes[j].x == g.x)
    && (g.Var? ==> var b := nodes[j].binder;
                   b < j && IsBinder(nodes[b].kind) && nodes[b].x == g.x)
  }

  /** Every variable in scope is bound by an earlier binder node of that
      variable. */
  predicate ScopeBinds(nodes: seq<Node>, scope: map<nat, nat>, k: nat) {
    forall v :: v in scope ==> scope[v] < k && scope[v] < |nodes| && IsBinder(nodes[scope[v]].kind) && nodes[scope[v]].x == v
  }

  /** A laid-out tree matches its preorder node by node. */
  lemma {:induction false} LaysPreorder(nodes: seq<Node>, k: nat, f: Formula, sb: nat, scope: map<nat, nat>, tbl: seq<string>)
    requires Lays(nodes, k, f, sb, scope, tbl) && ScopeBinds(nodes, scope, k)
    ensures forall i :: 0 <= i < Size(f) ==> NodeMatches(nodes, k + i, Preorder(f)[i])
    decreases f, 1
  {
    if f.Mu? || f.Nu? || f.Diamond? || f.Box? {
      LaysPreorderUnary(nodes, k, f, sb, scope, tbl);
    } else if f.And? || f.Or? {
      LaysPreorderOperands(nodes, k, f, sb, scope, tbl);
    } else {
      assert Preorder(f)[0] == f;
    }
  }

  lemma {:induction false} LaysPreorderUnary(nodes: seq<Node>, k: nat, f: Formula, sb: nat, scope: map<nat, nat>, tbl: seq<string>)
    requires f.Mu? || f.Nu? || f.Diamond? || f.Box?
    requires Lays(nodes, k, f, sb, scope, tbl) && ScopeBinds(nodes, scope, k)
    ensures forall i :: 0 <= i < Size(f) ==> NodeMatches(nodes, k + i, Preorder(f)[i])
    decreases f, 0
  {
    var sb', scope' := LaysBody(nodes, k, f, sb, scope, tbl);
    LaysPreorder(nodes, k + 1, f.body, sb', scope', tbl);
    MatchesBody(nodes, k, f);
  }

  /** The body of a unary node is laid out after it, in the scope that
      the node opens. */
  lemma {:induction false} LaysBody(nodes: seq<Node>, k: nat, f: Formula, sb: nat, scope: map<nat, nat>, tbl: seq<string>)
    returns (sb': nat, scope': map<nat, nat>)
    requires f.Mu? || f.Nu? || f.Diamond? || f.Box?
    requires Lays(nodes, k, f, sb, scope, tbl) && ScopeBinds(nodes, scope, k)
    ensures Lays(nodes, k + 1, f.body, sb', scope', tbl) && ScopeBinds(nodes, scope', k + 1)
    ensures NodeMatches(nodes, k, f)
  {
    if f.Mu? || f.Nu? {
      sb', scope' := Type(f), scope[f.x := k];
    } else {
      sb', scope' := sb, scope;
    }
  }

  /** The preorder of a unary node is the node, then its body's. */
  lemma {:induction false} MatchesBody(nodes: seq<Node>, k: nat, f: Formula)
    requires f.Mu? || f.Nu? || f.Diamond? || f.Box?
    requires NodeMatches(nodes, k, f)
    requires forall i :: 0 <= i < Size(f.body) ==> NodeMatches(nodes, k + 1 + i, Preorder(f.body)[i])
    ensures forall i :: 0 <= i < Size(f) ==> NodeMatches(nodes, k + i, Preorder(f)[i])
  {
    forall i | 1 <= i < Size(f)
      ensures NodeMatches(nodes, k + i, Preorder(f)[i])
    {
      var a := PreorderBody(f, i);
      assert k + i == k + 1 + a;
    }
  }

  lemma {:induction false} LaysPreorderOperands(nodes: seq<Node>, k: nat, f: Formula, sb: nat, scope: map<nat, nat>, tbl: seq<string>)
    requires f.And? || f.Or?
    requires Lays(nodes, k, f, sb, scope, tbl) && ScopeBinds(nodes, scope, k)
    ensures forall i :: 0 <= i < Size(f) ==> NodeMatches(nodes, k + i, Preorder(f)[i])
    decreases f, 0
  {
    var n := 1 + Size(f.left);
    LaysOperands(nodes, k, f, sb, scope, tbl);
    LaysPreorder(nodes, k + 1, f.left, sb, scope, tbl);
    LaysPreorder(nodes, k + n, f.right, sb, scope, tbl);
    MatchesOperands(nodes, k, f);
  }

  /** The operands of an operator are laid out one after the other, in
      its scope. */
  lemma {:induction false} LaysOperands(nodes: seq<Node>, k: nat, f: Formula, sb: nat, scope: map<nat, nat>, tbl: seq<string>)
    requires Lays(nodes, k, f, sb, scope, tbl) && (f.And? || f.Or?)
    ensures Lays(nodes, k + 1, f.left, sb, scope, tbl) && Lays(nodes, k + 1 + Size(f.left), f.right, sb, scope, tbl)
    ensures ScopeBinds(nodes, scope, k) ==>
              && ScopeBinds(nodes, scope, k + 1) && ScopeBinds(nodes, scope, k + 1 + Size(f.left))
              && NodeMatches(nodes, k, f)
  {
  }

  /** The preorder of an operator is the node, then its left operand's,
      then its right operand's. */
  lemma {:induction false} MatchesOperands(nodes: seq<Node>, k: nat, f: Formula)
    requires f.And? || f.Or?
    requires NodeMatches(nodes, k, f)
    requires forall i :: 0 <= i < Size(f.left) ==> NodeMatches(nodes, k + 1 + i, Preorder(f.left)[i])
    requires forall i :: 0 <= i < Size(f.right) ==>
               NodeMatches(nodes, k + 1 + Size(f.left) + i, Preorder(f.right)[i])
    ensures forall i :: 0 <= i < Size(f) ==> NodeMatches(nodes, k + i, Preorder(f)[i])
  {
    MatchesLeft(nodes, k, f);
    MatchesRight(nodes, k, f);
  }

  lemma {:induction false} MatchesLeft(nodes: seq<Node>, k: nat, f: Formula)
    requires f.And? || f.Or?
    requires forall i :: 0 <= i < Size(f.left) ==> NodeMatches(nodes, k + 1 + i, Preorder(f.left)[i])
    ensures forall i :: 1 <= i < 1 + Size(f.left) ==> NodeMatches(nodes, k + i, Preorder(f)[i])
  {
    forall i | 1 <= i < 1 + Size(f.left)
      ensures NodeMatches(nodes, k + i, Preorder(f)[i])
    {
      var a := PreorderLeft(f, i);
      assert k + i == k + 1 + a;
    }
  }

  lemma {:induction false} MatchesRight(nodes: seq<Node>, k: nat, f: Formula)
    requires f.And? || f.Or?
    requires forall i :: 0 <= i < Size(f.right) ==>
               NodeMatches(nodes, k + 1 + Size(f.left) + i, Preorder(f.right)[i])
    ensures forall i :: 1 + Size(f.left) <= i < Size(f) ==> NodeMatches(nodes, k + i, Preorder(f)[i])
  {
    forall i | 1 + Size(f.left) <= i < Size(f)
      ensures NodeMatches(nodes, k + i, Preorder(f)[i])
    {
      var a := PreorderRight(f, i);
      assert k + i == k + 1 + Size(f.left) + a;
    }
  }

  function Shadowed(): (f: Formula)
    ensures Closed(f) && Size(f) == 5
  {
    Nu(0, Or(Mu(0, Var(0)), Var(0)))
  }
}
