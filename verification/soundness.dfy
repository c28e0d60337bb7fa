/** The naive policy computes the semantics: for a closed formula laid out
    by `f_init` over an LTS that the transition table represents, `eval`
    of the root returns the set of states satisfying the formula,
    provided the fixpoint loops may run one round more than there are
    states.

    The invariant behind it is `Ready`: every binder in a subtree holds
    either its identity (it restarts) or the value its formula denotes
    under the current sets of the binders in scope. */
module Soundness {
  import opened Results
  import opened Formulas
  import opened StateSets
  import opened Semantics
  import opened Arena
  import opened Evaluator
  import LtsStore

  /** The transition table of label `l` holds exactly the `tbl[l]`-edges
      of `m`. */
  ghost predicate Models(store: LtsStore.Store, tbl: seq<string>, m: Lts) {
    && store.nrOfStates == m.nrOfStates && LtsWf(m)
    && forall l: nat, s: nat, t: nat :: l < |tbl| ==>
         (LtsStore.Transition(s, t) in LtsStore.TransitionsFor(store, l) <==> LabelledEdge(s, tbl[l], t) in m.edges)
  }

  /** The edges of an LTS file, one per edge line, labels as text. */
  function EdgesOf(lines: seq<seq<char>>): (es: seq<LabelledEdge>)
    requires forall k :: 0 <= k < |lines| ==> LtsStore.ParseLine(lines[k]).Ok?
    ensures |es| == |lines|
    ensures forall k :: 0 <= k < |lines| ==>
              var raw := LtsStore.ParseLine(lines[k]).value;
              es[k] == LabelledEdge(raw.s, raw.name, raw.t)
    decreases |lines|
  {
    if |lines| == 0 then []
    else
      var raw := LtsStore.ParseLine(lines[0]).value;
      assert forall k :: 1 <= k < |lines| ==> lines[1..][k - 1] == lines[k];
      [LabelledEdge(raw.s, raw.name, raw.t)] + EdgesOf(lines[1..])
  }

  /** What `read_lts` stores (mc.c:45-122) is the LTS its edge lines
      describe: every transition array is in range, and after `f_init` has
      added the formula's labels, label `l`'s array holds exactly the
      edges labelled `tbl[l]`. The store is as `LtsStore.ReadLts` returns
      it, for a file whose edges come in source runs. */
  lemma {:induction false} ReadLtsModels(h: LtsStore.Header, lines: seq<seq<char>>, store: LtsStore.Store,
                                         edges: seq<LtsStore.Edge>, f: Formula)
    requires |lines| >= h.nrOfTransitions && Closed(f)
    requires LtsStore.ParseEdges(lines[..h.nrOfTransitions], [], h.nrOfStates) == Ok((edges, store.labels))
    requires store.nrOfStates == h.nrOfStates && |store.transitions| == |store.labels|
    requires LtsStore.SourceRuns(edges)
    requires forall l :: 0 <= l < |store.labels| ==> store.transitions[l] == LtsStore.BySource(edges, l, h.nrOfStates)
    ensures forall k :: 0 <= k < h.nrOfTransitions ==> LtsStore.ParseLine(lines[k]).Ok?
    ensures var m := Lts(h.nrOfStates, EdgesOf(lines[..h.nrOfTransitions]));
            StoreWf(store) && Models(store, Build(f, store.labels).1, m)
  {
    var pre := lines[..h.nrOfTransitions];
    assert forall k :: 0 <= k < h.nrOfTransitions ==> pre[k] == lines[k];
    ReadModels(pre, store, edges, f);
  }

  lemma {:induction false} ReadModels(lines: seq<seq<char>>, store: LtsStore.Store, edges: seq<LtsStore.Edge>, f: Formula)
    requires Closed(f)
    requires LtsStore.ParseEdges(lines, [], store.nrOfStates) == Ok((edges, store.labels))
    requires |store.transitions| == |store.labels| && LtsStore.SourceRuns(edges)
    requires forall l :: 0 <= l < |store.labels| ==> store.transitions[l] == LtsStore.BySource(edges, l, store.nrOfStates)
    ensures forall k :: 0 <= k < |lines| ==> LtsStore.ParseLine(lines[k]).Ok?
    ensures StoreWf(store) && Models(store, Build(f, store.labels).1, Lts(store.nrOfStates, EdgesOf(lines)))
  {
    var m := Lts(store.nrOfStates, EdgesOf(lines));
    var tbl := Build(f, store.labels).1;
    LtsStore.ParseEdgesNoRepeats(lines, [], store.nrOfStates);
    BuildAtNoRepeats(f, [], 0, map[], store.labels);
    ReadStoreWf(lines, store, edges);
    forall l: nat, s: nat, t: nat | l < |tbl|
      ensures LtsStore.Transition(s, t) in LtsStore.TransitionsFor(store, l) <==> LabelledEdge(s, tbl[l], t) in m.edges
    {
      ReadEdge(lines, store, edges, tbl, l, s, t);
    }
  }

  /** The arrays `read_lts` fills hold states of the header's range. */
  lemma {:induction false} ReadStoreWf(lines: seq<seq<char>>, store: LtsStore.Store, edges: seq<LtsStore.Edge>)
    requires LtsStore.ParseEdges(lines, [], store.nrOfStates) == Ok((edges, store.labels))
    requires |store.transitions| == |store.labels| && LtsStore.SourceRuns(edges)
    requires forall l :: 0 <= l < |store.labels| ==> store.transitions[l] == LtsStore.BySource(edges, l, store.nrOfStates)
    ensures StoreWf(store)
  {
    forall l, i | 0 <= l < |store.transitions| && 0 <= i < |store.transitions[l]|
      ensures store.transitions[l][i].s < store.nrOfStates && store.transitions[l][i].t < store.nrOfStates
    {
      LtsStore.TransitionsForEdges(store, edges, l, store.transitions[l][i]);
    }
  }

  /** One label and pair: in the array of `l` exactly when an edge line
      names the pair with label `tbl[l]`, the labels being unique. */
  lemma {:induction false} ReadEdge(lines: seq<seq<char>>, store: LtsStore.Store, edges: seq<LtsStore.Edge>,
                                    tbl: seq<string>, l: nat, s: nat, t: nat)
    requires LtsStore.ParseEdges(lines, [], store.nrOfStates) == Ok((edges, store.labels))
    requires |store.transitions| == |store.labels| && LtsStore.SourceRuns(edges)
    requires forall l :: 0 <= l < |store.labels| ==> store.transitions[l] == LtsStore.BySource(edges, l, store.nrOfStates)
    requires store.labels <= tbl && Labels.NoRepeats(tbl) && l < |tbl|
    ensures forall k :: 0 <= k < |lines| ==> LtsStore.ParseLine(lines[k]).Ok?
    ensures LtsStore.Transition(s, t) in LtsStore.TransitionsFor(store, l) <==> LabelledEdge(s, tbl[l], t) in EdgesOf(lines)
  {
    LtsStore.TransitionsForEdges(store, edges, l, LtsStore.Transition(s, t));
    if LtsStore.Transition(s, t) in LtsStore.TransitionsFor(store, l) {
      var k :| 0 <= k < |edges| && edges[k] == LtsStore.Edge(s, l, t);
      EdgeLine(lines, store.nrOfStates, edges, store.labels, tbl, k);
    }
    if LabelledEdge(s, tbl[l], t) in EdgesOf(lines) {
      var k :| 0 <= k < |lines| && EdgesOf(lines)[k] == LabelledEdge(s, tbl[l], t);
      EdgeLine(lines, store.nrOfStates, edges, store.labels, tbl, k);
    }
  }

  /** Edge `k` and line `k` name the same pair and the same label. */
  lemma {:induction false} EdgeLine(lines: seq<seq<char>>, n: nat, edges: seq<LtsStore.Edge>, labels: seq<string>,
                                    tbl: seq<string>, k: nat)
    requires LtsStore.ParseEdges(lines, [], n) == Ok((edges, labels))
    requires labels <= tbl && Labels.NoRepeats(tbl) && k < |lines|
    ensures forall k :: 0 <= k < |lines| ==> LtsStore.ParseLine(lines[k]).Ok?
    ensures |edges| == |lines| && edges[k].l < |tbl|
    ensures EdgesOf(lines)[k] == LabelledEdge(edges[k].s, tbl[edges[k].l], edges[k].t)
    ensures forall l :: 0 <= l < |tbl| && tbl[l] == EdgesOf(lines)[k].act ==> l == edges[k].l
  {
    var e := edges[k];
    assert tbl[e.l] == labels[e.l];
  }

  predicate SetsWf(vals: seq<StateSet>, n: nat) {
    forall j :: 0 <= j < |vals| ==> |vals[j]| == n
  }

  predicate ScopeBelow(scope: map<nat, nat>, bound: nat) {
    forall v :: v in scope ==> scope[v] < bound
  }

  /** The environment the binders in scope give: each variable has the
      set of its binder. */
  function EnvOf(vals: seq<StateSet>, scope: map<nat, nat>): (rho: Env)
    requires ScopeBelow(scope, |vals|)
    ensures rho.Keys == scope.Keys
    ensures forall v :: v in scope ==> rho[v] == vals[scope[v]]
  {
    map v | v in scope :: vals[scope[v]]
  }

  lemma {:induction false} EnvOfWf(m: Lts, vals: seq<StateSet>, scope: map<nat, nat>)
    requires SetsWf(vals, m.nrOfStates) && ScopeBelow(scope, |vals|)
    ensures EnvWf(m, EnvOf(vals, scope))
  {
  }

  /** Entering a binder at `k` binds its variable to `k`'s set. */
  lemma {:induction false} EnvOfBind(vals: seq<StateSet>, scope: map<nat, nat>, x: nat, k: nat)
    requires ScopeBelow(scope, |vals|) && k < |vals|
    ensures EnvOf(vals, scope[x := k]) == EnvOf(vals, scope)[x := vals[k]]
  {
  }

  /** The environment only reads the sets of the binders in scope. */
  lemma {:induction false} EnvOfFrame(vals: seq<StateSet>, vals': seq<StateSet>, scope: map<nat, nat>, lo: nat)
    requires ScopeBelow(scope, lo) && lo <= |vals| && lo <= |vals'|
    requires forall i :: 0 <= i < lo ==> vals'[i] == vals[i]
    ensures EnvOf(vals', scope) == EnvOf(vals, scope)
  {
  }

  /** A binder's set is its identity, or the value of its formula, whose
      free variables are then all bound below `lo`. */
  predicate BinderReady(m: Lts, vals: seq<StateSet>, k: nat, f: Formula, scope: map<nat, nat>, lo: nat) {
    && k < |vals|
    && (|| vals[k] == Uniform(m.nrOfStates, f.Nu?)
        || (&& LtsWf(m) && SetsWf(vals, m.nrOfStates) && ScopeBelow(scope, |vals|)
            && (forall v :: v in FreeVars(f) ==> v in scope && scope[v] < lo)
            && vals[k] == Sem(m, EnvOf(vals, scope), f)))
  }

  /** Every binder of the subtree of `f` laid out at `k` is ready. */
  predicate Ready(m: Lts, vals: seq<StateSet>, k: nat, f: Formula, scope: map<nat, nat>, lo: nat)
    decreases f
  {
    if f.Mu? || f.Nu? then
      BinderReady(m, vals, k, f, scope, lo) && Ready(m, vals, k + 1, f.body, scope[f.x := k], lo)
    else if f.Diamond? || f.Box? then
      Ready(m, vals, k + 1, f.body, scope, lo)
    else if f.And? || f.Or? then
      Ready(m, vals, k + 1, f.left, scope, lo) && Ready(m, vals, k + 1 + Size(f.left), f.right, scope, lo)
    else
      true
  }

  /** One level of `Ready`, for each shape of formula. */
  lemma {:induction false} ReadyBinderIff(m: Lts, vals: seq<StateSet>, k: nat, f: Formula, scope: map<nat, nat>, lo: nat)
    requires f.Mu? || f.Nu?
    ensures Ready(m, vals, k, f, scope, lo)
            <==> BinderReady(m, vals, k, f, scope, lo) && Ready(m, vals, k + 1, f.body, scope[f.x := k], lo)
  {
  }

  lemma {:induction false} ReadyModalIff(m: Lts, vals: seq<StateSet>, k: nat, f: Formula, scope: map<nat, nat>, lo: nat)
    requires f.Diamond? || f.Box?
    ensures Ready(m, vals, k, f, scope, lo) <==> Ready(m, vals, k + 1, f.body, scope, lo)
  {
  }

  lemma {:induction false} ReadyOperands(m: Lts, vals: seq<StateSet>, k: nat, f: Formula, scope: map<nat, nat>, lo: nat)
    requires f.And? || f.Or?
    ensures Ready(m, vals, k, f, scope, lo)
            <==> Ready(m, vals, k + 1, f.left, scope, lo) && Ready(m, vals, k + 1 + Size(f.left), f.right, scope, lo)
  {
  }

  /** Readiness below `lo` implies readiness below any larger bound. */
  lemma {:induction false} ReadyWeaken(m: Lts, vals: seq<StateSet>, k: nat, f: Formula, scope: map<nat, nat>, lo: nat, lo': nat)
    requires LtsWf(m) && SetsWf(vals, m.nrOfStates) && k + Size(f) <= |vals| && ScopeBelow(scope, k)
    requires lo <= lo' && Ready(m, vals, k, f, scope, lo)
    ensures Ready(m, vals, k, f, scope, lo')
    decreases f, 1
  {
    if f.Mu? || f.Nu? {
      ReadyWeakenBinder(m, vals, k, f, scope, lo, lo');
    } else if f.Diamond? || f.Box? {
      ReadyWeakenModal(m, vals, k, f, scope, lo, lo');
    } else if f.And? || f.Or? {
      ReadyWeakenOperands(m, vals, k, f, scope, lo, lo');
    }
  }

  lemma {:induction false} ReadyWeakenBinder(m: Lts, vals: seq<StateSet>, k: nat, f: Formula, scope: map<nat, nat>, lo: nat, lo': nat)
    requires LtsWf(m) && SetsWf(vals, m.nrOfStates) && k + Size(f) <= |vals| && ScopeBelow(scope, k)
    requires lo <= lo' && Ready(m, vals, k, f, scope, lo)
    requires f.Mu? || f.Nu?
    ensures Ready(m, vals, k, f, scope, lo')
    decreases f, 0
  {
    ReadyBinderIff(m, vals, k, f, scope, lo);
    ReadyBinderIff(m, vals, k, f, scope, lo');
    ReadyWeaken(m, vals, k + 1, f.body, scope[f.x := k], lo, lo');
  }

  lemma {:induction false} ReadyWeakenModal(m: Lts, vals: seq<StateSet>, k: nat, f: Formula, scope: map<nat, nat>, lo: nat, lo': nat)
    requires LtsWf(m) && SetsWf(vals, m.nrOfStates) && k + Size(f) <= |vals| && ScopeBelow(scope, k)
    requires lo <= lo' && Ready(m, vals, k, f, scope, lo)
    requires f.Diamond? || f.Box?
    ensures Ready(m, vals, k, f, scope, lo')
    decreases f, 0
  {
    ReadyModalIff(m, vals, k, f, scope, lo);
    ReadyModalIff(m, vals, k, f, scope, lo');
    ReadyWeaken(m, vals, k + 1, f.body, scope, lo, lo');
  }

  lemma {:induction false} ReadyWeakenOperands(m: Lts, vals: seq<StateSet>, k: nat, f: Formula, scope: map<nat, nat>, lo: nat, lo': nat)
    requires LtsWf(m) && SetsWf(vals, m.nrOfStates) && k + Size(f) <= |vals| && ScopeBelow(scope, k)
    requires lo <= lo' && Ready(m, vals, k, f, scope, lo)
    requires f.And? || f.Or?
    ensures Ready(m, vals, k, f, scope, lo')
    decreases f, 0
  {
    ReadyOperands(m, vals, k, f, scope, lo);
    ReadyOperands(m, vals, k, f, scope, lo');
    ReadyWeaken(m, vals, k + 1, f.left, scope, lo, lo');
    ReadyWeaken(m, vals, k + 1 + Size(f.left), f.right, scope, lo, lo');
  }

  /** No binder in scope sits in `[lo, hi)`, and the subtree starts at or
      after `hi`: then "bound below `hi`" means "bound below `lo`". */
  lemma {:induction false} ReadyLower(m: Lts, vals: seq<StateSet>, k: nat, f: Formula, scope: map<nat, nat>, lo: nat, hi: nat)
    requires LtsWf(m) && SetsWf(vals, m.nrOfStates) && k + Size(f) <= |vals| && ScopeBelow(scope, k)
    requires lo <= hi <= k && forall v :: v in scope ==> scope[v] < lo || hi <= scope[v]
    requires Ready(m, vals, k, f, scope, hi)
    ensures Ready(m, vals, k, f, scope, lo)
    decreases f, 1
  {
    if f.Mu? || f.Nu? {
      ReadyLowerBinder(m, vals, k, f, scope, lo, hi);
    } else if f.Diamond? || f.Box? {
      ReadyLowerModal(m, vals, k, f, scope, lo, hi);
    } else if f.And? || f.Or? {
      ReadyLowerOperands(m, vals, k, f, scope, lo, hi);
    }
  }

  lemma {:induction false} ReadyLowerBinder(m: Lts, vals: seq<StateSet>, k: nat, f: Formula, scope: map<nat, nat>, lo: nat, hi: nat)
    requires LtsWf(m) && SetsWf(vals, m.nrOfStates) && k + Size(f) <= |vals| && ScopeBelow(scope, k)
    requires lo <= hi <= k && forall v :: v in scope ==> scope[v] < lo || hi <= scope[v]
    requires Ready(m, vals, k, f, scope, hi)
    requires f.Mu? || f.Nu?
    ensures Ready(m, vals, k, f, scope, lo)
    decreases f, 0
  {
    ReadyBinderIff(m, vals, k, f, scope, lo);
    ReadyBinderIff(m, vals, k, f, scope, hi);
    ReadyLower(m, vals, k + 1, f.body, scope[f.x := k], lo, hi);
  }

  lemma {:induction false} ReadyLowerModal(m: Lts, vals: seq<StateSet>, k: nat, f: Formula, scope: map<nat, nat>, lo: nat, hi: nat)
    requires LtsWf(m) && SetsWf(vals, m.nrOfStates) && k + Size(f) <= |vals| && ScopeBelow(scope, k)
    requires lo <= hi <= k && forall v :: v in scope ==> scope[v] < lo || hi <= scope[v]
    requires Ready(m, vals, k, f, scope, hi)
    requires f.Diamond? || f.Box?
    ensures Ready(m, vals, k, f, scope, lo)
    decreases f, 0
  {
    ReadyModalIff(m, vals, k, f, scope, lo);
    ReadyModalIff(m, vals, k, f, scope, hi);
    ReadyLower(m, vals, k + 1, f.body, scope, lo, hi);
  }

  lemma {:induction false} ReadyLowerOperands(m: Lts, vals: seq<StateSet>, k: nat, f: Formula, scope: map<nat, nat>, lo: nat, hi: nat)
    requires LtsWf(m) && SetsWf(vals, m.nrOfStates) && k + Size(f) <= |vals| && ScopeBelow(scope, k)
    requires lo <= hi <= k && forall v :: v in scope ==> scope[v] < lo || hi <= scope[v]
    requires Ready(m, vals, k, f, scope, hi)
    requires f.And? || f.Or?
    ensures Ready(m, vals, k, f, scope, lo)
    decreases f, 0
  {
    ReadyOperands(m, vals, k, f, scope, lo);
    ReadyOperands(m, vals, k, f, scope, hi);
    ReadyLowerChild(m, vals, k, k + Size(f), k + 1, f.left, scope, lo, hi);
    ReadyLowerChild(m, vals, k, k + Size(f), k + 1 + Size(f.left), f.right, scope, lo, hi);
  }

  /** `ReadyLower` for a subtree at `k'` inside `[k, end)`. */
  lemma {:induction false} ReadyLowerChild(m: Lts, vals: seq<StateSet>, k: nat, end: nat, k': nat, g: Formula,
                                           scope: map<nat, nat>, lo: nat, hi: nat)
    requires LtsWf(m) && SetsWf(vals, m.nrOfStates) && end <= |vals| && k <= k' && k' + Size(g) <= end
    requires ScopeBelow(scope, k)
    requires lo <= hi <= k && forall v :: v in scope ==> scope[v] < lo || hi <= scope[v]
    requires Ready(m, vals, k', g, scope, hi)
    ensures Ready(m, vals, k', g, scope, lo)
    decreases g, 2
  {
    ReadyLower(m, vals, k', g, scope, lo, hi);
  }

  /** Readiness of a subtree survives any change outside the subtree and
      at or above `lo`. */
  lemma {:induction false} ReadyFrame(m: Lts, vals: seq<StateSet>, vals': seq<StateSet>, k: nat, f: Formula,
                                      scope: map<nat, nat>, lo: nat)
    requires LtsWf(m) && SetsWf(vals, m.nrOfStates) && SetsWf(vals', m.nrOfStates) && |vals'| == |vals|
    requires k + Size(f) <= |vals| && ScopeBelow(scope, k)
    requires forall i :: 0 <= i < |vals| && (k <= i < k + Size(f) || i < lo) ==> vals'[i] == vals[i]
    requires Ready(m, vals, k, f, scope, lo)
    ensures Ready(m, vals', k, f, scope, lo)
    decreases f, 1
  {
    if f.Mu? || f.Nu? {
      ReadyFrameBinder(m, vals, vals', k, f, scope, lo);
    } else if f.Diamond? || f.Box? {
      ReadyFrameModal(m, vals, vals', k, f, scope, lo);
    } else if f.And? || f.Or? {
      ReadyFrameOperands(m, vals, vals', k, f, scope, lo);
    }
  }

  lemma {:induction false} ReadyFrameBinder(m: Lts, vals: seq<StateSet>, vals': seq<StateSet>, k: nat, f: Formula,
                                          scope: map<nat, nat>, lo: nat)
    requires LtsWf(m) && SetsWf(vals, m.nrOfStates) && SetsWf(vals', m.nrOfStates) && |vals'| == |vals|
    requires k + Size(f) <= |vals| && ScopeBelow(scope, k)
    requires forall i :: 0 <= i < |vals| && (k <= i < k + Size(f) || i < lo) ==> vals'[i] == vals[i]
    requires Ready(m, vals, k, f, scope, lo)
    requires f.Mu? || f.Nu?
    ensures Ready(m, vals', k, f, scope, lo)
    decreases f, 0
  {
    ReadyBinderIff(m, vals, k, f, scope, lo);
    ReadyBinderIff(m, vals', k, f, scope, lo);
    BinderFrame(m, vals, vals', k, f, scope, lo);
    ReadyFrame(m, vals, vals', k + 1, f.body, scope[f.x := k], lo);
  }

  lemma {:induction false} ReadyFrameModal(m: Lts, vals: seq<StateSet>, vals': seq<StateSet>, k: nat, f: Formula,
                                         scope: map<nat, nat>, lo: nat)
    requires LtsWf(m) && SetsWf(vals, m.nrOfStates) && SetsWf(vals', m.nrOfStates) && |vals'| == |vals|
    requires k + Size(f) <= |vals| && ScopeBelow(scope, k)
    requires forall i :: 0 <= i < |vals| && (k <= i < k + Size(f) || i < lo) ==> vals'[i] == vals[i]
    requires Ready(m, vals, k, f, scope, lo)
    requires f.Diamond? || f.Box?
    ensures Ready(m, vals', k, f, scope, lo)
    decreases f, 0
  {
    ReadyModalIff(m, vals, k, f, scope, lo);
    ReadyModalIff(m, vals', k, f, scope, lo);
    ReadyFrame(m, vals, vals', k + 1, f.body, scope, lo);
  }

  lemma {:induction false} ReadyFrameOperands(m: Lts, vals: seq<StateSet>, vals': seq<StateSet>, k: nat, f: Formula,
                                            scope: map<nat, nat>, lo: nat)
    requires LtsWf(m) && SetsWf(vals, m.nrOfStates) && SetsWf(vals', m.nrOfStates) && |vals'| == |vals|
    requires k + Size(f) <= |vals| && ScopeBelow(scope, k)
    requires forall i :: 0 <= i < |vals| && (k <= i < k + Size(f) || i < lo) ==> vals'[i] == vals[i]
    requires Ready(m, vals, k, f, scope, lo)
    requires f.And? || f.Or?
    ensures Ready(m, vals', k, f, scope, lo)
    decreases f, 0
  {
    ReadyOperands(m, vals, k, f, scope, lo);
    ReadyOperands(m, vals', k, f, scope, lo);
    ReadyFrame(m, vals, vals', k + 1, f.left, scope, lo);
    ReadyFrame(m, vals, vals', k + 1 + Size(f.left), f.right, scope, lo);
  }

  lemma {:induction false} BinderFrame(m: Lts, vals: seq<StateSet>, vals': seq<StateSet>, k: nat, f: Formula,
                    scope: map<nat, nat>, lo: nat)
    requires LtsWf(m) && SetsWf(vals, m.nrOfStates) && SetsWf(vals', m.nrOfStates) && |vals'| == |vals|
    requires k < |vals| && ScopeBelow(scope, |vals|)
    requires vals'[k] == vals[k] && forall i :: 0 <= i < lo && i < |vals| ==> vals'[i] == vals[i]
    requires BinderReady(m, vals, k, f, scope, lo)
    ensures BinderReady(m, vals', k, f, scope, lo)
  {
    if vals[k] != Uniform(m.nrOfStates, f.Nu?) {
      EnvOfWf(m, vals, scope);
      EnvOfWf(m, vals', scope);
      SemFreeVars(m, EnvOf(vals, scope), EnvOf(vals', scope), f);
    }
  }

  /** The free variables of a laid-out subtree are all in scope. */
  lemma {:induction false} LaysFreeVars(nodes: seq<Node>, k: nat, f: Formula, sb: nat, scope: map<nat, nat>, tbl: seq<string>)
    requires Lays(nodes, k, f, sb, scope, tbl)
    ensures forall v :: v in FreeVars(f) ==> v in scope
    decreases f
  {
    if f.Mu? || f.Nu? {
      LaysFreeVars(nodes, k + 1, f.body, Type(f), scope[f.x := k], tbl);
    } else if f.Diamond? || f.Box? {
      LaysFreeVars(nodes, k + 1, f.body, sb, scope, tbl);
    } else if f.And? || f.Or? {
      LaysFreeVars(nodes, k + 1, f.left, sb, scope, tbl);
      LaysFreeVars(nodes, k + 1 + Size(f.left), f.right, sb, scope, tbl);
    }
  }

  // ---------------------------------------------------------------------
  // The naive reset

  /** One binder after the reset of a round of binder `k0` with variable
      `x`: restarted if `x` is free in it, otherwise its value only reads
      binders below `k0`, which the round did not touch. */
  lemma {:induction false} BinderReset(m: Lts, nodes: seq<Node>, vals: seq<StateSet>, vals': seq<StateSet>,
                    k: nat, f: Formula, scope: map<nat, nat>, k0: nat, lo: nat, x: nat)
    requires Basics(m, nodes, vals) && SetsWf(vals', m.nrOfStates) && |vals'| == |vals|
    requires k < |vals| && ScopeBelow(scope, k) && k0 < k && (f.Mu? || f.Nu?) && nodes[k].kind == Type(f)
    requires OnlyBinds(scope, k0, x) && lo == k0 + 1
    requires forall i :: 0 <= i < k0 ==> vals'[i] == vals[i]
    requires vals'[k] == if x in FreeVars(f) then Uniform(m.nrOfStates, f.Nu?) else vals[k]
    requires BinderReady(m, vals, k, f, scope, lo)
    ensures BinderReady(m, vals', k, f, scope, k0)
  {
    if x !in FreeVars(f) && vals[k] != Uniform(m.nrOfStates, f.Nu?) {
      assert forall v :: v in FreeVars(f) ==> v in scope && scope[v] < k0;
      SemFreeVars(m, EnvOf(vals, scope), EnvOf(vals', scope), f);
    }
  }

  /** Binder `k0` binds no variable in scope but `x`. */
  predicate OnlyBinds(scope: map<nat, nat>, k0: nat, x: nat) {
    forall v :: v in scope && scope[v] == k0 ==> v == x
  }

  /** What the naive reset of a round of binder `k0` with variable `x`
      does to the sets of the nodes in `[k, hi)`: a binder whose formula
      has `x` free restarts from its identity, every other set stays. */
  predicate ResetIn(n: nat, nodes: seq<Node>, vals: seq<StateSet>, vals': seq<StateSet>, k: nat, hi: nat, x: nat)
    requires hi <= |nodes| && |vals| == |nodes| && |vals'| == |nodes|
  {
    forall i :: k <= i < hi ==>
      vals'[i] == if IsBinder(nodes[i].kind) && x in nodes[i].deps then Uniform(n, nodes[i].kind == TNu) else vals[i]
  }

  lemma {:induction false} ResetInNarrow(n: nat, nodes: seq<Node>, vals: seq<StateSet>, vals': seq<StateSet>,
                                         k: nat, hi: nat, k': nat, hi': nat, x: nat)
    requires hi <= |nodes| && |vals| == |nodes| && |vals'| == |nodes| && k <= k' && hi' <= hi
    requires ResetIn(n, nodes, vals, vals', k, hi, x)
    ensures ResetIn(n, nodes, vals, vals', k', hi', x)
  {
  }

  /** Every binder of the subtree of `f` laid out at `k` has the binder's
      type and records whether `x` is free in its formula. */
  predicate Marks(nodes: seq<Node>, k: nat, f: Formula, x: nat)
    decreases f
  {
    if f.Mu? || f.Nu? then
      && k < |nodes| && nodes[k].kind == Type(f) && (x in nodes[k].deps <==> x in FreeVars(f))
      && Marks(nodes, k + 1, f.body, x)
    else if f.Diamond? || f.Box? then
      Marks(nodes, k + 1, f.body, x)
    else if f.And? || f.Or? then
      Marks(nodes, k + 1, f.left, x) && Marks(nodes, k + 1 + Size(f.left), f.right, x)
    else
      true
  }

  lemma {:induction false} LaysMarks(nodes: seq<Node>, k: nat, f: Formula, sb: nat, scope: map<nat, nat>, tbl: seq<string>, x: nat)
    requires Lays(nodes, k, f, sb, scope, tbl)
    ensures Marks(nodes, k, f, x)
    decreases f
  {
    if f.Mu? || f.Nu? {
      LaysMarks(nodes, k + 1, f.body, Type(f), scope[f.x := k], tbl, x);
    } else if f.Diamond? || f.Box? {
      LaysMarks(nodes, k + 1, f.body, sb, scope, tbl, x);
    } else if f.And? || f.Or? {
      LaysMarks(nodes, k + 1, f.left, sb, scope, tbl, x);
      LaysMarks(nodes, k + 1 + Size(f.left), f.right, sb, scope, tbl, x);
    }
  }

  /** After a round of binder `k0` with variable `x` and the naive reset,
      every binder of its body is ready with respect to the binders below
      `k0`. */
  lemma {:induction false} ReadyReset(m: Lts, nodes: seq<Node>, vals: seq<StateSet>, vals': seq<StateSet>,
                                      k: nat, f: Formula, scope: map<nat, nat>, k0: nat, lo: nat, x: nat)
    requires Basics(m, nodes, vals) && SetsWf(vals', m.nrOfStates) && |vals'| == |vals|
    requires k + Size(f) <= |nodes| && Marks(nodes, k, f, x) && ScopeBelow(scope, k) && k0 < k
    requires OnlyBinds(scope, k0, x) && lo == k0 + 1
    requires forall i :: 0 <= i < k0 ==> vals'[i] == vals[i]
    requires ResetIn(m.nrOfStates, nodes, vals, vals', k, k + Size(f), x)
    requires Ready(m, vals, k, f, scope, lo)
    ensures Ready(m, vals', k, f, scope, k0)
    decreases f, 1
  {
    if f.Mu? || f.Nu? {
      ReadyResetBinder(m, nodes, vals, vals', k, f, scope, k0, lo, x);
    } else if f.Diamond? || f.Box? {
      ReadyResetModal(m, nodes, vals, vals', k, f, scope, k0, lo, x);
    } else if f.And? || f.Or? {
      ReadyResetOperands(m, nodes, vals, vals', k, f, scope, k0, lo, x);
    }
  }

  lemma {:induction false} ReadyResetBinder(m: Lts, nodes: seq<Node>, vals: seq<StateSet>, vals': seq<StateSet>,
                                            k: nat, f: Formula, scope: map<nat, nat>, k0: nat, lo: nat, x: nat)
    requires Basics(m, nodes, vals) && SetsWf(vals', m.nrOfStates) && |vals'| == |vals|
    requires k + Size(f) <= |nodes| && Marks(nodes, k, f, x) && ScopeBelow(scope, k) && k0 < k
    requires OnlyBinds(scope, k0, x) && lo == k0 + 1
    requires forall i :: 0 <= i < k0 ==> vals'[i] == vals[i]
    requires ResetIn(m.nrOfStates, nodes, vals, vals', k, k + Size(f), x)
    requires Ready(m, vals, k, f, scope, lo)
    requires f.Mu? || f.Nu?
    ensures Ready(m, vals', k, f, scope, k0)
    decreases f, 0
  {
    assert vals'[k] == if x in FreeVars(f) then Uniform(m.nrOfStates, f.Nu?) else vals[k];
    ReadyBinderIff(m, vals, k, f, scope, lo);
    ReadyBinderIff(m, vals', k, f, scope, k0);
    BinderReset(m, nodes, vals, vals', k, f, scope, k0, lo, x);
    ReadyResetChild(m, nodes, vals, vals', k, k + Size(f), k + 1, f.body, scope[f.x := k], k0, lo, x);
  }

  lemma {:induction false} ReadyResetModal(m: Lts, nodes: seq<Node>, vals: seq<StateSet>, vals': seq<StateSet>,
                                           k: nat, f: Formula, scope: map<nat, nat>, k0: nat, lo: nat, x: nat)
    requires Basics(m, nodes, vals) && SetsWf(vals', m.nrOfStates) && |vals'| == |vals|
    requires k + Size(f) <= |nodes| && Marks(nodes, k, f, x) && ScopeBelow(scope, k) && k0 < k
    requires OnlyBinds(scope, k0, x) && lo == k0 + 1
    requires forall i :: 0 <= i < k0 ==> vals'[i] == vals[i]
    requires ResetIn(m.nrOfStates, nodes, vals, vals', k, k + Size(f), x)
    requires Ready(m, vals, k, f, scope, lo)
    requires f.Diamond? || f.Box?
    ensures Ready(m, vals', k, f, scope, k0)
    decreases f, 0
  {
    ReadyModalIff(m, vals, k, f, scope, lo);
    ReadyModalIff(m, vals', k, f, scope, k0);
    ReadyResetChild(m, nodes, vals, vals', k, k + Size(f), k + 1, f.body, scope, k0, lo, x);
  }

  lemma {:induction false} ReadyResetOperands(m: Lts, nodes: seq<Node>, vals: seq<StateSet>, vals': seq<StateSet>,
                                              k: nat, f: Formula, scope: map<nat, nat>, k0: nat, lo: nat, x: nat)
    requires Basics(m, nodes, vals) && SetsWf(vals', m.nrOfStates) && |vals'| == |vals|
    requires k + Size(f) <= |nodes| && Marks(nodes, k, f, x) && ScopeBelow(scope, k) && k0 < k
    requires OnlyBinds(scope, k0, x) && lo == k0 + 1
    requires forall i :: 0 <= i < k0 ==> vals'[i] == vals[i]
    requires ResetIn(m.nrOfStates, nodes, vals, vals', k, k + Size(f), x)
    requires Ready(m, vals, k, f, scope, lo)
    requires f.And? || f.Or?
    ensures Ready(m, vals', k, f, scope, k0)
    decreases f, 0
  {
    ReadyOperands(m, vals, k, f, scope, lo);
    ReadyOperands(m, vals', k, f, scope, k0);
    var j := k + 1 + Size(f.left);
    assert ScopeBelow(scope, j) && j + Size(f.right) == k + Size(f);
    ReadyResetChild(m, nodes, vals, vals', k, k + Size(f), k + 1, f.left, scope, k0, lo, x);
    ReadyResetChild(m, nodes, vals, vals', k, k + Size(f), j, f.right, scope, k0, lo, x);
  }

  /** `ReadyReset` for a subtree at `k'` inside the reset range `[k, hi)`. */
  lemma {:induction false} ReadyResetChild(m: Lts, nodes: seq<Node>, vals: seq<StateSet>, vals': seq<StateSet>,
                                           k: nat, hi: nat, k': nat, g: Formula, scope: map<nat, nat>, k0: nat, lo: nat, x: nat)
    requires Basics(m, nodes, vals) && SetsWf(vals', m.nrOfStates) && |vals'| == |vals|
    requires hi <= |nodes| && k' + Size(g) <= hi && Marks(nodes, k', g, x) && ScopeBelow(scope, k') && k0 < k <= k'
    requires OnlyBinds(scope, k0, x) && lo == k0 + 1
    requires forall i :: 0 <= i < k0 ==> vals'[i] == vals[i]
    requires ResetIn(m.nrOfStates, nodes, vals, vals', k, hi, x)
    requires Ready(m, vals, k', g, scope, lo)
    ensures Ready(m, vals', k', g, scope, k0)
    decreases g, 2
  {
    ResetInNarrow(m.nrOfStates, nodes, vals, vals', k, hi, k', k' + Size(g), x);
    ReadyReset(m, nodes, vals, vals', k', g, scope, k0, lo, x);
  }

  // ---------------------------------------------------------------------
  // Diamond and Box

  /** The scan over the transitions of label `l` computes the Diamond
      (Box) of `tbl[l]` when the table represents the LTS. */
  lemma {:induction false} ModalMatches(store: LtsStore.Store, m: Lts, tbl: seq<string>, l: nat, child: StateSet, bracket: bool)
    requires StoreWf(store) && Models(store, tbl, m) && l < |tbl| && |child| == m.nrOfStates
    ensures ModalScan(LtsStore.TransitionsFor(store, l), child, bracket)
            == if bracket then BoxSet(m, tbl[l], child) else DiamondSet(m, tbl[l], child)
  {
    var trs := LtsStore.TransitionsFor(store, l);
    var a := tbl[l];
    var r := ModalScan(trs, child, bracket);
    var d := if bracket then BoxSet(m, a, child) else DiamondSet(m, a, child);
    forall s | 0 <= s < |child|
      ensures r[s] == d[s]
    {
      if bracket {
        if r[s] {
          forall e | 0 <= e < |m.edges| && m.edges[e].s == s && m.edges[e].act == a
            ensures child[m.edges[e].t]
          {
            assert LabelledEdge(s, a, m.edges[e].t) == m.edges[e];
            assert LtsStore.Transition(s, m.edges[e].t) in trs;
          }
        }
        if d[s] {
          forall i | 0 <= i < |trs| && trs[i].s == s
            ensures child[trs[i].t]
          {
            assert LtsStore.Transition(s, trs[i].t) == trs[i];
            assert LabelledEdge(s, a, trs[i].t) in m.edges;
          }
        }
      } else {
        if r[s] {
          var i :| 0 <= i < |trs| && trs[i].s == s && child[trs[i].t];
          assert LtsStore.Transition(s, trs[i].t) == trs[i];
          assert LabelledEdge(s, a, trs[i].t) in m.edges;
        }
        if d[s] {
          var e :| 0 <= e < |m.edges| && m.edges[e].s == s && m.edges[e].act == a && child[m.edges[e].t];
          assert LabelledEdge(s, a, m.edges[e].t) == m.edges[e];
          assert LtsStore.Transition(s, m.edges[e].t) in trs;
        }
      }
    }
  }

  // ---------------------------------------------------------------------
  // eval under the naive policy

  /** What every step assumes: the naive policy, a well-formed arena, a
      transition table representing `m` through the label table `tbl`,
      and exactly the variables valid. */
  ghost predicate Setting(c: Checker, m: Lts, tbl: seq<string>, st: State) {
    && c.policy == Naive && CheckerWf(c) && Models(c.store, tbl, m) && StateWf(c, st)
    && forall j :: 0 <= j < |c.nodes| ==> (st.valid[j] <==> c.nodes[j].kind == TVar)
  }

  /** Node `k` lays out `f` under `scope`, and the binders of the subtree
      are ready. */
  predicate Placed(m: Lts, nodes: seq<Node>, vals: seq<StateSet>, tbl: seq<string>, k: nat, f: Formula, sb: nat,
                   scope: map<nat, nat>) {
    Lays(nodes, k, f, sb, scope, tbl) && ScopeOk(nodes, scope, k) && Ready(m, vals, k, f, scope, k)
  }

  /** A well-formed LTS, one set of its states per node. */
  predicate Basics(m: Lts, nodes: seq<Node>, vals: seq<StateSet>) {
    LtsWf(m) && SetsWf(vals, m.nrOfStates) && |vals| == |nodes|
  }

  lemma {:induction false} SettingBasics(c: Checker, m: Lts, tbl: seq<string>, st: State)
    requires Setting(c, m, tbl, st)
    ensures Basics(m, c.nodes, st.vals)
  {
  }

  /** A state with the same flags keeps the setting. */
  lemma {:induction false} SettingKept(c: Checker, m: Lts, tbl: seq<string>, st: State, st': State)
    requires Setting(c, m, tbl, st) && StateWf(c, st') && st'.valid == st.valid
    ensures Setting(c, m, tbl, st')
  {
  }

  /** Before `eval` of node `k` from `st`. */
  ghost predicate Prepared(c: Checker, m: Lts, tbl: seq<string>, st: State, k: nat, f: Formula, sb: nat, scope: map<nat, nat>) {
    Setting(c, m, tbl, st) && Placed(m, c.nodes, st.vals, tbl, k, f, sb, scope)
  }

  /** After `eval` of node `k` from `st`: it returned, kept the flags,
      its value is that of `f` under the binders in scope, and the
      binders of the subtree are ready. */
  ghost predicate Evaluated(c: Checker, m: Lts, st: State, k: nat, f: Formula, scope: map<nat, nat>, r: Result<State>) {
    && r.Ok? && CheckerWf(c) && StateWf(c, r.value) && k < |c.nodes| && r.value.valid == st.valid
    && LtsWf(m) && SetsWf(st.vals, m.nrOfStates) && ScopeBelow(scope, |st.vals|)
    && Value(c, r.value, k) == Sem(m, EnvOf(st.vals, scope), f)
    && Ready(m, r.value.vals, k, f, scope, k)
  }

  /** `Evaluated` only reads the sets of the binders in scope and the
      flags of the starting state. */
  lemma {:induction false} EvaluatedFrom(c: Checker, m: Lts, st: State, st': State, k: nat, f: Formula, scope: map<nat, nat>, r: Result<State>)
    requires Evaluated(c, m, st', k, f, scope, r)
    requires st'.valid == st.valid && |st.vals| == |st'.vals| && SetsWf(st.vals, m.nrOfStates)
    requires EnvOf(st'.vals, scope) == EnvOf(st.vals, scope)
    ensures Evaluated(c, m, st, k, f, scope, r)
  {
  }

  /** A node's value only reads the set it points to, which lies at or
      before the node. */
  lemma {:induction false} ValueFrame(c: Checker, st: State, st': State, i: nat, k: nat)
    requires CheckerWf(c) && StateWf(c, st) && StateWf(c, st') && i < k < |c.nodes|
    requires Frame(c, st, st', k)
    ensures Value(c, st', i) == Value(c, st, i)
  {
  }

  /** `eval` of node `k`, which lays out `f`, returns the value of `f`
      under the sets of the binders in scope, and leaves every binder of
      the subtree ready. */
  lemma {:induction false} NaiveCorrect(c: Checker, m: Lts, tbl: seq<string>, st: State, k: nat, f: Formula,
                                        sb: nat, scope: map<nat, nat>, fuel: nat)
    requires Prepared(c, m, tbl, st, k, f, sb, scope) && fuel > m.nrOfStates
    ensures Evaluated(c, m, st, k, f, scope, Eval(c, st, k, fuel))
    decreases f, 2, 0, 0
  {
    if f.Var? {
      VarEvaluated(c, m, tbl, st, k, f, sb, scope, fuel);
    } else {
      var st1 := Counted(st, c.nodes[k].kind);
      CountedPrepared(c, m, tbl, st, k, f, sb, scope, fuel);
      if f.And? || f.Or? {
        NaiveBinop(c, m, tbl, st1, k, f, sb, scope, fuel);
      } else if f.Diamond? || f.Box? {
        NaiveModal(c, m, tbl, st1, k, f, sb, scope, fuel);
      } else if f.Mu? || f.Nu? {
        NaiveBinder(c, m, tbl, st1, k, f, sb, scope, fuel);
      } else {
        ConstEvaluated(c, m, tbl, st1, k, f, sb, scope, fuel);
      }
      EvaluatedFrom(c, m, st, st1, k, f, scope, Eval(c, st, k, fuel));
    }
  }

  /** A variable is valid: `eval` returns at once, with its binder's set. */
  lemma {:induction false} VarEvaluated(c: Checker, m: Lts, tbl: seq<string>, st: State, k: nat, f: Formula,
                     sb: nat, scope: map<nat, nat>, fuel: nat)
    requires Prepared(c, m, tbl, st, k, f, sb, scope) && f.Var?
    ensures Evaluated(c, m, st, k, f, scope, Eval(c, st, k, fuel))
  {
    assert st.valid[k];
  }

  /** A constant points to the shared `False` or `True` set. */
  lemma {:induction false} ConstEvaluated(c: Checker, m: Lts, tbl: seq<string>, st: State, k: nat, f: Formula,
                       sb: nat, scope: map<nat, nat>, fuel: nat)
    requires Prepared(c, m, tbl, st, k, f, sb, scope) && (f.FFalse? || f.FTrue?)
    ensures Evaluated(c, m, st, k, f, scope, EvalNode(c, st, k, fuel))
  {
  }

  /** Counting the call changes no set and no flag; a node that is not a
      variable is not valid, so `eval` goes on to the `switch`. */
  lemma {:induction false} CountedPrepared(c: Checker, m: Lts, tbl: seq<string>, st: State, k: nat, f: Formula,
                        sb: nat, scope: map<nat, nat>, fuel: nat)
    requires Prepared(c, m, tbl, st, k, f, sb, scope) && !f.Var?
    ensures var st1 := Counted(st, c.nodes[k].kind);
            && Prepared(c, m, tbl, st1, k, f, sb, scope)
            && Eval(c, st, k, fuel) == EvalNode(c, st1, k, fuel)
            && st1.vals == st.vals && st1.valid == st.valid
            && (f.And? || f.Or? ==> EvalNode(c, st1, k, fuel) == EvalBinop(c, st1, k, fuel))
            && (f.Diamond? || f.Box? ==> EvalNode(c, st1, k, fuel) == EvalModal(c, st1, k, fuel))
            && (f.Mu? || f.Nu? ==> EvalNode(c, st1, k, fuel) == EvalBinder(c, st1, k, fuel))
  {
    assert !st.valid[k];
  }

  // Binop

  lemma {:induction false} NaiveBinop(c: Checker, m: Lts, tbl: seq<string>, st: State, k: nat, f: Formula,
                                      sb: nat, scope: map<nat, nat>, fuel: nat)
    requires Prepared(c, m, tbl, st, k, f, sb, scope) && fuel > m.nrOfStates && (f.And? || f.Or?)
    ensures Evaluated(c, m, st, k, f, scope, EvalBinop(c, st, k, fuel))
    decreases f, 1, 0, 0
  {
    var j := k + 1 + Size(f.left);
    SettingBasics(c, m, tbl, st);
    BinopLeftPrepared(m, c.nodes, st.vals, tbl, k, f, sb, scope);
    NaiveCorrect(c, m, tbl, st, k + 1, f.left, sb, scope, fuel);
    var s1 := Eval(c, st, k + 1, fuel).value;
    LaysChildEnd(c.nodes, k + 1, f.left, sb, scope, tbl);
    SettingKept(c, m, tbl, st, s1);
    BinopRightPrepared(m, c.nodes, st.vals, s1.vals, tbl, k, j, f, sb, scope);
    NaiveCorrect(c, m, tbl, s1, j, f.right, sb, scope, fuel);
    var s2 := Eval(c, s1, j, fuel).value;
    LaysChildEnd(c.nodes, j, f.right, sb, scope, tbl);
    BinopFinish(c, m, tbl, st, s1, s2, k, j, f, sb, scope, fuel);
  }

  lemma {:induction false} BinopLeftPrepared(m: Lts, nodes: seq<Node>, vals: seq<StateSet>, tbl: seq<string>, k: nat,
                                             f: Formula, sb: nat, scope: map<nat, nat>)
    requires Basics(m, nodes, vals) && Placed(m, nodes, vals, tbl, k, f, sb, scope) && (f.And? || f.Or?)
    ensures Placed(m, nodes, vals, tbl, k + 1, f.left, sb, scope)
  {
    LaysOperands(nodes, k, f, sb, scope, tbl);
    ReadyOperands(m, vals, k, f, scope, k);
    PlacedAt(m, nodes, vals, tbl, k, k + 1, f.left, sb, scope);
  }

  /** A subtree laid out at `k'` past `k`, under a scope checked below
      `k`, whose binders are ready below `k`, is placed. */
  lemma {:induction false} PlacedAt(m: Lts, nodes: seq<Node>, vals: seq<StateSet>, tbl: seq<string>, k: nat, k': nat,
                                    g: Formula, sb: nat, scope: map<nat, nat>)
    requires Basics(m, nodes, vals) && k <= k' && Lays(nodes, k', g, sb, scope, tbl) && ScopeOk(nodes, scope, k)
    requires Ready(m, vals, k', g, scope, k)
    ensures Placed(m, nodes, vals, tbl, k', g, sb, scope)
  {
    ReadyWeaken(m, vals, k', g, scope, k, k');
  }

  lemma {:induction false} LaysModal(nodes: seq<Node>, k: nat, f: Formula, sb: nat, scope: map<nat, nat>, tbl: seq<string>)
    requires Lays(nodes, k, f, sb, scope, tbl) && (f.Diamond? || f.Box?)
    ensures Lays(nodes, k + 1, f.body, sb, scope, tbl) && nodes[k].l < |tbl| && tbl[nodes[k].l] == f.act
  {
  }


  lemma {:induction false} BinopRightPrepared(m: Lts, nodes: seq<Node>, vals: seq<StateSet>, vals1: seq<StateSet>,
                                              tbl: seq<string>, k: nat, j: nat, f: Formula, sb: nat, scope: map<nat, nat>)
    requires Basics(m, nodes, vals) && SetsWf(vals1, m.nrOfStates) && |vals1| == |vals|
    requires Placed(m, nodes, vals, tbl, k, f, sb, scope) && (f.And? || f.Or?) && j == k + 1 + Size(f.left)
    requires forall i :: 0 <= i < |vals| && !(k + 1 <= i < j) ==> vals1[i] == vals[i]
    ensures Placed(m, nodes, vals1, tbl, j, f.right, sb, scope)
  {
    ReadyFrame(m, vals, vals1, j, f.right, scope, k);
    ReadyWeaken(m, vals1, j, f.right, scope, k, j);
  }

  lemma {:induction false} BinopFinish(c: Checker, m: Lts, tbl: seq<string>, st: State, s1: State, s2: State, k: nat, j: nat, f: Formula,
                                       sb: nat, scope: map<nat, nat>, fuel: nat)
    requires CheckerWf(c) && StateWf(c, st) && StateWf(c, s1) && StateWf(c, s2) && Basics(m, c.nodes, st.vals)
    requires (f.And? || f.Or?) && j == k + 1 + Size(f.left) && k + Size(f) <= |c.nodes| && ScopeBelow(scope, k)
    requires c.nodes[k].kind == Type(f) && c.nodes[k + 1].childEnd == j && c.nodes[j].childEnd == j + Size(f.right)
    requires Eval(c, st, k + 1, fuel) == Ok(s1) && s1.valid == st.valid && Frame(c, st, s1, k + 1)
    requires Value(c, s1, k + 1) == Sem(m, EnvOf(st.vals, scope), f.left) && Ready(m, s1.vals, k + 1, f.left, scope, k + 1)
    requires Eval(c, s1, j, fuel) == Ok(s2) && s2.valid == s1.valid && Frame(c, s1, s2, j)
    requires Value(c, s2, j) == Sem(m, EnvOf(s1.vals, scope), f.right) && Ready(m, s2.vals, j, f.right, scope, j)
    ensures Evaluated(c, m, st, k, f, scope, EvalBinop(c, st, k, fuel))
  {
    EnvOfFrame(st.vals, s1.vals, scope, k);
    BinopValue(c, m, s1, s2, k, j, f, EnvOf(st.vals, scope));
    var a := Value(c, s2, k + 1);
    var b := Value(c, s2, j);
    var r := s2.(vals := s2.vals[k := if c.nodes[k].kind == TAnd then Meet(a, b) else Join(a, b)]);
    EvalBinopStep(c, st, k, j, fuel, s1, s2);
    OwnValue(c, r, k);
    BinopReady(m, s1.vals, s2.vals, r.vals, k, j, f, scope);
  }

  /** The meet (join) of the operands' values is the value of the And (Or). */
  lemma {:induction false} BinopValue(c: Checker, m: Lts, s1: State, s2: State, k: nat, j: nat, f: Formula, rho: Env)
    requires CheckerWf(c) && StateWf(c, s1) && StateWf(c, s2) && LtsWf(m) && EnvWf(m, rho)
    requires (f.And? || f.Or?) && k + 1 < j < |c.nodes| && c.nodes[k].kind == Type(f) && Frame(c, s1, s2, j)
    requires Value(c, s1, k + 1) == Sem(m, rho, f.left) && Value(c, s2, j) == Sem(m, rho, f.right)
    ensures var a := Value(c, s2, k + 1);
            var b := Value(c, s2, j);
            (if c.nodes[k].kind == TAnd then Meet(a, b) else Join(a, b)) == Sem(m, rho, f)
  {
    ValueFrame(c, s1, s2, k + 1, j);
  }

  /** An operator or binder node points to its own set. */
  lemma {:induction false} OwnValue(c: Checker, st: State, k: nat)
    requires CheckerWf(c) && StateWf(c, st) && k < |c.nodes|
    requires IsBinop(c.nodes[k].kind) || IsModal(c.nodes[k].kind) || IsBinder(c.nodes[k].kind)
    ensures Value(c, st, k) == st.vals[k]
  {
  }

  lemma {:induction false} BinopReady(m: Lts, vals1: seq<StateSet>, vals2: seq<StateSet>, vals': seq<StateSet>,
                                      k: nat, j: nat, f: Formula, scope: map<nat, nat>)
    requires (f.And? || f.Or?) && j == k + 1 + Size(f.left) && k + Size(f) <= |vals1| && ScopeBelow(scope, k)
    requires LtsWf(m) && SetsWf(vals1, m.nrOfStates) && SetsWf(vals2, m.nrOfStates) && SetsWf(vals', m.nrOfStates)
    requires |vals2| == |vals1| && |vals'| == |vals1|
    requires forall i :: 0 <= i < |vals1| && !(j <= i < j + Size(f.right)) ==> vals2[i] == vals1[i]
    requires forall i :: 0 <= i < |vals1| && i != k ==> vals'[i] == vals2[i]
    requires Ready(m, vals1, k + 1, f.left, scope, k + 1) && Ready(m, vals2, j, f.right, scope, j)
    ensures Ready(m, vals', k, f, scope, k)
  {
    ReadyLower(m, vals1, k + 1, f.left, scope, k, k + 1);
    ReadyFrame(m, vals1, vals', k + 1, f.left, scope, k);
    ReadyLower(m, vals2, j, f.right, scope, k, j);
    ReadyFrame(m, vals2, vals', j, f.right, scope, k);
  }

  /** The binop case of the `switch` once both operands are evaluated. */
  lemma {:induction false} EvalBinopStep(c: Checker, st: State, k: nat, j: nat, fuel: nat, s1: State, s2: State)
    requires CheckerWf(c) && StateWf(c, st) && k + 1 < j < |c.nodes| && IsBinop(c.nodes[k].kind)
    requires c.nodes[k + 1].childEnd == j
    requires Eval(c, st, k + 1, fuel) == Ok(s1) && StateWf(c, s1)
    requires Eval(c, s1, j, fuel) == Ok(s2) && StateWf(c, s2)
    ensures var a := Value(c, s2, k + 1);
            var b := Value(c, s2, j);
            EvalBinop(c, st, k, fuel) == Ok(s2.(vals := s2.vals[k := if c.nodes[k].kind == TAnd then Meet(a, b) else Join(a, b)]))
  {
  }

  // Diamond and Box

  lemma {:induction false} NaiveModal(c: Checker, m: Lts, tbl: seq<string>, st: State, k: nat, f: Formula,
                                      sb: nat, scope: map<nat, nat>, fuel: nat)
    requires Prepared(c, m, tbl, st, k, f, sb, scope) && fuel > m.nrOfStates && (f.Diamond? || f.Box?)
    ensures Evaluated(c, m, st, k, f, scope, EvalModal(c, st, k, fuel))
    decreases f, 1, 0, 0
  {
    SettingBasics(c, m, tbl, st);
    ModalChildPrepared(m, c.nodes, st.vals, tbl, k, f, sb, scope);
    NaiveCorrect(c, m, tbl, st, k + 1, f.body, sb, scope, fuel);
    ModalFinish(c, m, tbl, st, Eval(c, st, k + 1, fuel).value, k, f, scope, fuel);
  }

  lemma {:induction false} ModalChildPrepared(m: Lts, nodes: seq<Node>, vals: seq<StateSet>, tbl: seq<string>, k: nat,
                                              f: Formula, sb: nat, scope: map<nat, nat>)
    requires Basics(m, nodes, vals) && Placed(m, nodes, vals, tbl, k, f, sb, scope) && (f.Diamond? || f.Box?)
    ensures Placed(m, nodes, vals, tbl, k + 1, f.body, sb, scope)
  {
    ReadyWeaken(m, vals, k + 1, f.body, scope, k, k + 1);
  }

  lemma {:induction false} ModalFinish(c: Checker, m: Lts, tbl: seq<string>, st: State, s1: State, k: nat, f: Formula,
                                       scope: map<nat, nat>, fuel: nat)
    requires CheckerWf(c) && StateWf(c, st) && StateWf(c, s1) && Basics(m, c.nodes, st.vals) && Models(c.store, tbl, m)
    requires (f.Diamond? || f.Box?) && k + Size(f) <= |c.nodes| && ScopeBelow(scope, k) && c.nodes[k].kind == Type(f)
    requires c.nodes[k].l < |tbl| && tbl[c.nodes[k].l] == f.act
    requires Eval(c, st, k + 1, fuel) == Ok(s1) && s1.valid == st.valid
    requires Value(c, s1, k + 1) == Sem(m, EnvOf(st.vals, scope), f.body) && Ready(m, s1.vals, k + 1, f.body, scope, k + 1)
    ensures Evaluated(c, m, st, k, f, scope, EvalModal(c, st, k, fuel))
  {
    var l := c.nodes[k].l;
    var child := Value(c, s1, k + 1);
    ModalMatches(c.store, m, tbl, l, child, f.Box?);
    var r := s1.(vals := s1.vals[k := ModalScan(LtsStore.TransitionsFor(c.store, l), child, f.Box?)]);
    EvalModalStep(c, st, k, fuel, s1);
    OwnValue(c, r, k);
    ModalReady(m, s1.vals, r.vals, k, f, scope);
  }

  lemma {:induction false} ModalReady(m: Lts, vals1: seq<StateSet>, vals': seq<StateSet>, k: nat, f: Formula,
                                      scope: map<nat, nat>)
    requires (f.Diamond? || f.Box?) && k + Size(f) <= |vals1| && ScopeBelow(scope, k)
    requires LtsWf(m) && SetsWf(vals1, m.nrOfStates) && SetsWf(vals', m.nrOfStates) && |vals'| == |vals1|
    requires forall i :: 0 <= i < |vals1| && i != k ==> vals'[i] == vals1[i]
    requires Ready(m, vals1, k + 1, f.body, scope, k + 1)
    ensures Ready(m, vals', k, f, scope, k)
  {
    assert ScopeBelow(scope, k + 1);
    ReadyLower(m, vals1, k + 1, f.body, scope, k, k + 1);
    assert forall i :: 0 <= i < |vals1| && (k + 1 <= i < k + 1 + Size(f.body) || i < k) ==> vals'[i] == vals1[i];
    ReadyFrame(m, vals1, vals', k + 1, f.body, scope, k);
    ReadyModalIff(m, vals', k, f, scope, k);
  }

  /** The modal case of the `switch` once the operand is evaluated. */
  lemma {:induction false} EvalModalStep(c: Checker, st: State, k: nat, fuel: nat, s1: State)
    requires CheckerWf(c) && StateWf(c, st) && k + 1 < |c.nodes| && IsModal(c.nodes[k].kind)
    requires Eval(c, st, k + 1, fuel) == Ok(s1) && StateWf(c, s1)
    ensures EvalModal(c, st, k, fuel)
            == Ok(s1.(vals := s1.vals[k := ModalScan(LtsStore.TransitionsFor(c.store, c.nodes[k].l), Value(c, s1, k + 1),
                                                     c.nodes[k].kind == TBracket)]))
  {
  }

  // Mu and Nu

  /** Before a round of the loop of binder `k`: its set is the `i`-th
      approximant, the body's binders are ready. */
  ghost predicate InLoop(c: Checker, m: Lts, tbl: seq<string>, st: State, k: nat, f: Formula, sb: nat,
                         scope: map<nat, nat>, i: nat) {
    && Setting(c, m, tbl, st) && (f.Mu? || f.Nu?)
    && Lays(c.nodes, k, f, sb, scope, tbl) && ScopeOk(c.nodes, scope, k)
    && i <= m.nrOfStates && LtsWf(m) && SetsWf(st.vals, m.nrOfStates) && ScopeBelow(scope, |st.vals|) && k < |st.vals|
    && st.vals[k] == Approx(m, EnvOf(st.vals, scope), f.x, f.body, Uniform(m.nrOfStates, !f.Mu?), i)
    && Ready(m, st.vals, k + 1, f.body, scope[f.x := k], k)
  }

  lemma {:induction false} NaiveBinder(c: Checker, m: Lts, tbl: seq<string>, st: State, k: nat, f: Formula,
                                       sb: nat, scope: map<nat, nat>, fuel: nat)
    requires Prepared(c, m, tbl, st, k, f, sb, scope) && fuel > m.nrOfStates && (f.Mu? || f.Nu?)
    ensures Evaluated(c, m, st, k, f, scope, EvalBinder(c, st, k, fuel))
    decreases f, 1, 0, 0
  {
    var i := LoopStart(c, m, tbl, st, k, f, sb, scope);
    FixpointCorrect(c, m, tbl, st, st, k, f, sb, scope, fuel, fuel, i);
  }

  /** A ready binder holds its identity, the 0-th approximant, or its
      value, which is the `n`-th. */
  lemma {:induction false} LoopStart(c: Checker, m: Lts, tbl: seq<string>, st: State, k: nat, f: Formula,
                  sb: nat, scope: map<nat, nat>) returns (i: nat)
    requires Prepared(c, m, tbl, st, k, f, sb, scope) && (f.Mu? || f.Nu?)
    ensures InLoop(c, m, tbl, st, k, f, sb, scope, i)
  {
    if st.vals[k] == Uniform(m.nrOfStates, f.Nu?) {
      i := 0;
    } else {
      i := m.nrOfStates;
    }
  }

  /** The loop of binder `k`, run from `st` with `rounds` rounds left,
      ends as `eval` of `k` from `st0` must. */
  ghost predicate LoopResult(c: Checker, m: Lts, st0: State, st: State, k: nat, f: Formula, scope: map<nat, nat>,
                             fuel: nat, rounds: nat)
    requires CheckerWf(c) && StateWf(c, st) && k < |c.nodes| && IsBinder(c.nodes[k].kind)
  {
    Evaluated(c, m, st0, k, f, scope, Fixpoint(c, st, k, fuel, rounds))
  }

  /** The loop of binder `k` entered with the `i`-th approximant and
      enough rounds left ends with the binder's value; `st0` is the state
      `eval` started from, whose binder sets in scope `st` still has. */
  lemma {:induction false} FixpointCorrect(c: Checker, m: Lts, tbl: seq<string>, st0: State, st: State, k: nat,
                                           f: Formula, sb: nat, scope: map<nat, nat>, fuel: nat, rounds: nat, i: nat)
    requires InLoop(c, m, tbl, st, k, f, sb, scope, i) && fuel > m.nrOfStates && m.nrOfStates < rounds + i
    requires st.valid == st0.valid && |st.vals| == |st0.vals| && SetsWf(st0.vals, m.nrOfStates)
    requires EnvOf(st.vals, scope) == EnvOf(st0.vals, scope)
    ensures LoopResult(c, m, st0, st, k, f, scope, fuel, rounds)
    decreases f, 0, rounds, 1
  {
    var s1 := Round(st, c.nodes[k].kind);
    RoundPrepared(c, m, tbl, st, k, f, sb, scope, i);
    NaiveCorrect(c, m, tbl, s1, k + 1, f.body, Type(f), scope[f.x := k], fuel);
    var s2 := Eval(c, s1, k + 1, fuel).value;
    var s4 := EndOfRound(c, s2, k);
    RoundEnd(c, m, tbl, st, s2, k, f, sb, scope, fuel, i);
    var rest := rounds - 1;
    FixpointUnroll(c, st, k, fuel, rounds, rest, s2);
    if s4.vals[k] == st.vals[k] {
      LoopDone(c, m, tbl, st0, st, s4, k, f, sb, scope, i);
    } else {
      LoopNext(c, m, tbl, st0, st, s4, k, f, sb, scope, fuel, rounds, rest, i);
    }
  }

  /** A round that changed the binder's set: the loop goes on from the
      next approximant with one round less. */
  lemma {:induction false} LoopNext(c: Checker, m: Lts, tbl: seq<string>, st0: State, st: State, s4: State, k: nat,
                                    f: Formula, sb: nat, scope: map<nat, nat>, fuel: nat, rounds: nat, rest: nat, i: nat)
    requires InLoop(c, m, tbl, st, k, f, sb, scope, i) && fuel > m.nrOfStates && m.nrOfStates < rounds + i && rest + 1 == rounds
    requires st.valid == st0.valid && |st.vals| == |st0.vals| && SetsWf(st0.vals, m.nrOfStates)
    requires EnvOf(st.vals, scope) == EnvOf(st0.vals, scope)
    requires Setting(c, m, tbl, s4) && s4.valid == st.valid && |s4.vals| == |st.vals| && s4.vals[k] != st.vals[k]
    requires EnvOf(s4.vals, scope) == EnvOf(st.vals, scope)
    requires s4.vals[k] == Approx(m, EnvOf(st.vals, scope), f.x, f.body, Uniform(m.nrOfStates, !f.Mu?), i + 1)
    requires Ready(m, s4.vals, k + 1, f.body, scope[f.x := k], k)
    ensures LoopResult(c, m, st0, s4, k, f, scope, fuel, rest)
    decreases f, 0, rounds, 0
  {
    LoopAdvance(c, m, tbl, st, s4, k, f, sb, scope, i);
    FixpointCorrect(c, m, tbl, st0, s4, k, f, sb, scope, fuel, rest, i + 1);
  }

  /** After a round below the limit the loop is at the next approximant. */
  lemma {:induction false} LoopAdvance(c: Checker, m: Lts, tbl: seq<string>, st: State, s4: State, k: nat, f: Formula,
                                       sb: nat, scope: map<nat, nat>, i: nat)
    requires InLoop(c, m, tbl, st, k, f, sb, scope, i)
    requires Setting(c, m, tbl, s4) && |s4.vals| == |st.vals| && s4.vals[k] != st.vals[k]
    requires EnvOf(s4.vals, scope) == EnvOf(st.vals, scope)
    requires s4.vals[k] == Approx(m, EnvOf(st.vals, scope), f.x, f.body, Uniform(m.nrOfStates, !f.Mu?), i + 1)
    requires Ready(m, s4.vals, k + 1, f.body, scope[f.x := k], k)
    ensures InLoop(c, m, tbl, s4, k, f, sb, scope, i + 1)
  {
    RoundBelowLimit(m, EnvOf(st.vals, scope), f.x, f.body, f.Mu?, i);
  }

  /** A round that changes the binder's set is not the last possible one:
      the `n`-th approximant is already a fixpoint. */
  lemma {:induction false} RoundBelowLimit(m: Lts, rho: Env, x: nat, b: Formula, least: bool, i: nat)
    requires LtsWf(m) && EnvWf(m, rho) && i <= m.nrOfStates
    requires var start := Uniform(m.nrOfStates, !least);
             Approx(m, rho, x, b, start, i + 1) != Approx(m, rho, x, b, start, i)
    ensures i < m.nrOfStates
  {
    if i == m.nrOfStates {
      ApproxConverges(m, rho, x, b, least);
    }
  }

  lemma {:induction false} RoundPrepared(c: Checker, m: Lts, tbl: seq<string>, st: State, k: nat, f: Formula,
                      sb: nat, scope: map<nat, nat>, i: nat)
    requires InLoop(c, m, tbl, st, k, f, sb, scope, i)
    ensures Prepared(c, m, tbl, Round(st, c.nodes[k].kind), k + 1, f.body, Type(f), scope[f.x := k])
  {
    var s1 := Round(st, c.nodes[k].kind);
    ScopeOkBelow(c.nodes, scope, k);
    LaysBinderBody(c.nodes, k, f, sb, scope, tbl);
    ScopeOkBind(c.nodes, scope, k, f.x);
    ReadyWeaken(m, st.vals, k + 1, f.body, scope[f.x := k], k, k + 1);
    SettingKept(c, m, tbl, st, s1);
  }

  lemma {:induction false} ScopeOkBelow(nodes: seq<Node>, scope: map<nat, nat>, k: nat)
    requires ScopeOk(nodes, scope, k)
    ensures ScopeBelow(scope, k)
  {
  }

  /** Binding a variable to binder node `k` keeps every variable in scope
      bound by an earlier binder. */
  lemma {:induction false} ScopeOkBind(nodes: seq<Node>, scope: map<nat, nat>, k: nat, x: nat)
    requires ScopeOk(nodes, scope, k) && k < |nodes| && IsBinder(nodes[k].kind)
    ensures ScopeOk(nodes, scope[x := k], k + 1)
  {
  }

  /** One round: the body's value is the next approximant. */
  lemma {:induction false} RoundEnd(c: Checker, m: Lts, tbl: seq<string>, st: State, s2: State, k: nat, f: Formula,
                 sb: nat, scope: map<nat, nat>, fuel: nat, i: nat)
    requires InLoop(c, m, tbl, st, k, f, sb, scope, i)
    requires var r := Eval(c, Round(st, c.nodes[k].kind), k + 1, fuel);
             Evaluated(c, m, Round(st, c.nodes[k].kind), k + 1, f.body, scope[f.x := k], r) && s2 == r.value
    ensures var s4 := EndOfRound(c, s2, k);
            && Setting(c, m, tbl, s4) && s4.valid == st.valid && |s4.vals| == |st.vals|
            && EnvOf(s4.vals, scope) == EnvOf(st.vals, scope)
            && s4.vals[k] == Approx(m, EnvOf(st.vals, scope), f.x, f.body, Uniform(m.nrOfStates, !f.Mu?), i + 1)
            && Ready(m, s4.vals, k + 1, f.body, scope[f.x := k], k)
  {
    var s4 := EndOfRound(c, s2, k);
    EnvOfBind(st.vals, scope, f.x, k);
    ApproxStep(m, EnvOf(st.vals, scope), f.x, f.body, Uniform(m.nrOfStates, !f.Mu?), i);
    EnvOfFrame(st.vals, s4.vals, scope, k);
    RoundReady(c, m, tbl, s2, k, f, sb, scope);
  }

  /** The naive reset at the end of a round leaves the body's binders
      ready for the next one. */
  lemma {:induction false} RoundReady(c: Checker, m: Lts, tbl: seq<string>, s2: State, k: nat, f: Formula,
                   sb: nat, scope: map<nat, nat>)
    requires CheckerWf(c) && c.policy == Naive && StateWf(c, s2) && NrOfStates(c) == m.nrOfStates
    requires Basics(m, c.nodes, s2.vals) && (f.Mu? || f.Nu?)
    requires Lays(c.nodes, k, f, sb, scope, tbl) && ScopeBelow(scope, k)
    requires Ready(m, s2.vals, k + 1, f.body, scope[f.x := k], k + 1)
    ensures Ready(m, EndOfRound(c, s2, k).vals, k + 1, f.body, scope[f.x := k], k)
  {
    var s4 := EndOfRound(c, s2, k);
    var scope' := scope[f.x := k];
    LaysBinderBody(c.nodes, k, f, sb, scope, tbl);
    RoundResets(c, s2, k, Size(f.body));
    LaysMarks(c.nodes, k + 1, f.body, Type(f), scope', tbl, f.x);
    ReadyReset(m, c.nodes, s2.vals, s4.vals, k + 1, f.body, scope', k, k + 1, f.x);
  }

  /** The body of a laid-out binder is laid out under the extended scope. */
  lemma {:induction false} LaysBinderBody(nodes: seq<Node>, k: nat, f: Formula, sb: nat, scope: map<nat, nat>, tbl: seq<string>)
    requires Lays(nodes, k, f, sb, scope, tbl) && (f.Mu? || f.Nu?) && ScopeBelow(scope, k)
    ensures Lays(nodes, k + 1, f.body, Type(f), scope[f.x := k], tbl) && ScopeBelow(scope[f.x := k], k + 1)
    ensures nodes[k].childEnd == k + 1 + Size(f.body) && nodes[k].x == f.x && nodes[k].kind == Type(f)
    ensures OnlyBinds(scope[f.x := k], k, f.x)
  {
  }

  /** The end of a naive round of binder `k` whose body has `size` nodes
      keeps every set below `k` and resets the body's nodes. */
  lemma {:induction false} RoundResets(c: Checker, s2: State, k: nat, size: nat)
    requires CheckerWf(c) && c.policy == Naive && StateWf(c, s2) && k < |c.nodes| && IsBinder(c.nodes[k].kind)
    requires c.nodes[k].childEnd == k + 1 + size
    ensures var s4 := EndOfRound(c, s2, k);
            && |s4.vals| == |s2.vals| && SetsWf(s4.vals, NrOfStates(c)) && k + 1 + size <= |c.nodes|
            && (forall i :: 0 <= i < k ==> s4.vals[i] == s2.vals[i])
            && ResetIn(NrOfStates(c), c.nodes, s2.vals, s4.vals, k + 1, k + 1 + size, c.nodes[k].x)
  {
    var s4 := EndOfRound(c, s2, k);
    assert NodeWf(c.nodes, k);
    forall i | k + 1 <= i < k + 1 + size
      ensures s4.vals[i] == if IsBinder(c.nodes[i].kind) && c.nodes[k].x in c.nodes[i].deps
                            then Uniform(NrOfStates(c), c.nodes[i].kind == TNu) else s2.vals[i]
    {
    }
  }

  /** The round that changes nothing ends the loop with the fixpoint. */
  lemma {:induction false} LoopDone(c: Checker, m: Lts, tbl: seq<string>, st0: State, st: State, s4: State, k: nat,
                                    f: Formula, sb: nat, scope: map<nat, nat>, i: nat)
    requires InLoop(c, m, tbl, st, k, f, sb, scope, i)
    requires st.valid == st0.valid && |st.vals| == |st0.vals| && SetsWf(st0.vals, m.nrOfStates)
    requires EnvOf(st.vals, scope) == EnvOf(st0.vals, scope)
    requires Setting(c, m, tbl, s4) && s4.valid == st.valid && |s4.vals| == |st.vals|
    requires EnvOf(s4.vals, scope) == EnvOf(st.vals, scope)
    requires s4.vals[k] == Approx(m, EnvOf(st.vals, scope), f.x, f.body, Uniform(m.nrOfStates, !f.Mu?), i + 1)
    requires Ready(m, s4.vals, k + 1, f.body, scope[f.x := k], k)
    requires s4.vals[k] == st.vals[k]
    ensures Evaluated(c, m, st0, k, f, scope, Ok(s4))
  {
    StableApproxIsSem(m, EnvOf(st.vals, scope), f.x, f.body, f.Mu?, i);
    LaysFreeVars(c.nodes, k, f, sb, scope, tbl);
  }

  // ---------------------------------------------------------------------
  // The whole check

  /** Every binder holds its identity: every binder is ready. */
  lemma {:induction false} InitReady(m: Lts, nodes: seq<Node>, vals: seq<StateSet>, k: nat, f: Formula,
                                     scope: map<nat, nat>, lo: nat)
    requires k + Size(f) <= |nodes| && |vals| == |nodes| && Marks(nodes, k, f, 0)
    requires forall j :: 0 <= j < |nodes| ==> vals[j] == Uniform(m.nrOfStates, nodes[j].kind == TNu)
    ensures Ready(m, vals, k, f, scope, lo)
    decreases f, 1
  {
    if f.Mu? || f.Nu? {
      InitReadyBinder(m, nodes, vals, k, f, scope, lo);
    } else if f.Diamond? || f.Box? {
      InitReadyModal(m, nodes, vals, k, f, scope, lo);
    } else if f.And? || f.Or? {
      InitReadyOperands(m, nodes, vals, k, f, scope, lo);
    }
  }

  lemma {:induction false} InitReadyBinder(m: Lts, nodes: seq<Node>, vals: seq<StateSet>, k: nat, f: Formula,
                                           scope: map<nat, nat>, lo: nat)
    requires k + Size(f) <= |nodes| && |vals| == |nodes| && Marks(nodes, k, f, 0)
    requires forall j :: 0 <= j < |nodes| ==> vals[j] == Uniform(m.nrOfStates, nodes[j].kind == TNu)
    requires f.Mu? || f.Nu?
    ensures Ready(m, vals, k, f, scope, lo)
    decreases f, 0
  {
    assert vals[k] == Uniform(m.nrOfStates, f.Nu?);
    ReadyBinderIff(m, vals, k, f, scope, lo);
    InitReady(m, nodes, vals, k + 1, f.body, scope[f.x := k], lo);
  }

  lemma {:induction false} InitReadyModal(m: Lts, nodes: seq<Node>, vals: seq<StateSet>, k: nat, f: Formula,
                                          scope: map<nat, nat>, lo: nat)
    requires k + Size(f) <= |nodes| && |vals| == |nodes| && Marks(nodes, k, f, 0)
    requires forall j :: 0 <= j < |nodes| ==> vals[j] == Uniform(m.nrOfStates, nodes[j].kind == TNu)
    requires f.Diamond? || f.Box?
    ensures Ready(m, vals, k, f, scope, lo)
    decreases f, 0
  {
    ReadyModalIff(m, vals, k, f, scope, lo);
    InitReady(m, nodes, vals, k + 1, f.body, scope, lo);
  }

  lemma {:induction false} InitReadyOperands(m: Lts, nodes: seq<Node>, vals: seq<StateSet>, k: nat, f: Formula,
                                             scope: map<nat, nat>, lo: nat)
    requires k + Size(f) <= |nodes| && |vals| == |nodes| && Marks(nodes, k, f, 0)
    requires forall j :: 0 <= j < |nodes| ==> vals[j] == Uniform(m.nrOfStates, nodes[j].kind == TNu)
    requires f.And? || f.Or?
    ensures Ready(m, vals, k, f, scope, lo)
    decreases f, 0
  {
    ReadyOperands(m, vals, k, f, scope, lo);
    InitReady(m, nodes, vals, k + 1, f.left, scope, lo);
    InitReady(m, nodes, vals, k + 1 + Size(f.left), f.right, scope, lo);
  }

  /** `f_init` followed by `eval` of the root under the naive policy
      computes the set of states satisfying a closed formula, when the
      transition table represents the LTS through the label table
      `f_init` leaves, and the loops may run one round more than there
      are states. */
  lemma {:induction false} NaiveSound(f: Formula, tbl0: seq<string>, store: LtsStore.Store, m: Lts, fuel: nat)
    requires Closed(f) && StoreWf(store) && fuel > m.nrOfStates
    requires Models(store, Build(f, tbl0).1, m)
    ensures CheckerWf(Checker(Build(f, tbl0).0, store, Naive)) && 0 < |Build(f, tbl0).0|
    ensures var c := Checker(Build(f, tbl0).0, store, Naive);
            var r := Eval(c, InitState(c), 0, fuel);
            r.Ok? && StateWf(c, r.value) && Value(c, r.value, 0) == Sem(m, map[], f)
  {
    var (nodes, tbl) := Build(f, tbl0);
    var c := Checker(nodes, store, Naive);
    var st := InitState(c);
    BuildWf(f, tbl0);
    LaysMarks(nodes, 0, f, 0, map[], tbl, 0);
    InitReady(m, nodes, st.vals, 0, f, map[], 0);
    assert Setting(c, m, tbl, st);
    assert Placed(m, nodes, st.vals, tbl, 0, f, 0, map[]);
    NaiveCorrect(c, m, tbl, st, 0, f, 0, map[], fuel);
    assert EnvOf(st.vals, map[]) == map[];
  }

  /** From the file to the answer: for the store `read_lts` makes of a file
      whose edges come in source runs, the naive `eval` of the root of a
      closed formula is the set of states of the file's LTS that satisfy
      it. */
  lemma {:induction false} FileSound(lines: seq<seq<char>>, store: LtsStore.Store, edges: seq<LtsStore.Edge>,
                                     f: Formula, fuel: nat)
    requires Closed(f) && fuel > store.nrOfStates
    requires LtsStore.ParseEdges(lines, [], store.nrOfStates) == Ok((edges, store.labels))
    requires |store.transitions| == |store.labels| && LtsStore.SourceRuns(edges)
    requires forall l :: 0 <= l < |store.labels| ==> store.transitions[l] == LtsStore.BySource(edges, l, store.nrOfStates)
    ensures forall k :: 0 <= k < |lines| ==> LtsStore.ParseLine(lines[k]).Ok?
    ensures var c := Checker(Build(f, store.labels).0, store, Naive);
            0 < |c.nodes| && CheckerWf(c)
            && var r := Eval(c, InitState(c), 0, fuel);
               r.Ok? && Value(c, r.value, 0) == Sem(Lts(store.nrOfStates, EdgesOf(lines)), map[], f)
  {
    ReadModels(lines, store, edges, f);
    NaiveSound(f, store.labels, store, Lts(store.nrOfStates, EdgesOf(lines)), fuel);
  }
}
