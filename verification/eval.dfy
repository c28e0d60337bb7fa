/** `eval` (mc.c:243-330), sequential path: the value of every node of the
    arena, computed bottom-up, with the fixpoint loop of Mu/Nu binders and
    the two invalidation policies.

    A node's `value` pointer is modelled by `StorageOf`: binders and
    operators own a set, a variable shares its binder's, and the constants
    point to the shared `False`/`True` sets. The loop of a binder runs for
    at most `fuel` rounds; running out is an `Err`. */
module Evaluator {
  import opened Results
  import opened Formulas
  import opened StateSets
  import opened Arena
  import LtsStore

  /** `Emerson_Lei` set or not. */
  datatype Policy = EmersonLei | Naive

  /** What `eval` reads but never writes: the arena, the LTS and the policy. */
  datatype Checker = Checker(nodes: seq<Node>, store: LtsStore.Store, policy: Policy)

  /** What `eval` writes: the set each node owns, the `valid` flags, the
      per-type `evalcount` and the two iteration counters. */
  datatype State = State(vals: seq<StateSet>, valid: seq<bool>, evalcount: seq<nat>,
                         lfpIterations: nat, gfpIterations: nat)

  function NrOfStates(c: Checker): nat {
    c.store.nrOfStates
  }

  /** Every transition of every label is between states of the LTS. */
  predicate StoreWf(store: LtsStore.Store) {
    forall l, i :: 0 <= l < |store.transitions| && 0 <= i < |store.transitions[l]| ==>
      store.transitions[l][i].s < store.nrOfStates && store.transitions[l][i].t < store.nrOfStates
  }

  predicate CheckerWf(c: Checker) {
    ArenaWf(c.nodes) && StoreWf(c.store)
  }

  predicate StateWf(c: Checker, st: State) {
    && |st.vals| == |c.nodes| && |st.valid| == |c.nodes| && |st.evalcount| == NrOfTypes
    && forall j :: 0 <= j < |st.vals| ==> |st.vals[j]| == NrOfStates(c)
  }

  /** The set a node's `value` pointer designates. */
  datatype Storage = Own(k: nat) | SharedFalse | SharedTrue

  function StorageOf(c: Checker, k: nat): (r: Storage)
    requires CheckerWf(c) && k < |c.nodes|
    ensures r.Own? ==> r.k <= k
  {
    var n := c.nodes[k];
    assert NodeWf(c.nodes, k);
    if n.kind == TFalse then SharedFalse
    else if n.kind == TTrue then SharedTrue
    else if n.kind == TVar then Own(n.binder)
    else Own(k)
  }

  /** The set `f->value` of node `k`. */
  function Value(c: Checker, st: State, k: nat): (r: StateSet)
    requires CheckerWf(c) && StateWf(c, st) && k < |c.nodes|
    ensures |r| == NrOfStates(c)
  {
    match StorageOf(c, k)
    case Own(j) => st.vals[j]
    case SharedFalse => Uniform(NrOfStates(c), false)
    case SharedTrue => Uniform(NrOfStates(c), true)
  }

  /** The initial value of a binder, to which the resets also return it:
      empty for Mu, full for Nu (mc.c:227, 298, 311). */
  function Identity(c: Checker, j: nat): (r: StateSet)
    requires j < |c.nodes|
    ensures |r| == NrOfStates(c)
  {
    Uniform(NrOfStates(c), c.nodes[j].kind == TNu)
  }

  /** The state `f_init` leaves (mc.c:219-231) and a fresh worker starts
      with (zeroed by `calloc` at mc.c:400, reset at mc.c:156-158 on the
      threaded path): binders hold their identity, only variables
      are valid, all counters are zero. The sets of the operators are
      allocated but not initialised; they are written before they are
      read and modelled as empty. */
  function InitState(c: Checker): (st: State)
    ensures StateWf(c, st)
    ensures forall j :: 0 <= j < |c.nodes| ==> (st.valid[j] <==> c.nodes[j].kind == TVar)
    ensures forall j :: 0 <= j < |c.nodes| && c.nodes[j].kind == TMu ==> st.vals[j] == Uniform(NrOfStates(c), false)
    ensures forall j :: 0 <= j < |c.nodes| && c.nodes[j].kind == TNu ==> st.vals[j] == Uniform(NrOfStates(c), true)
    ensures forall t :: 0 <= t < NrOfTypes ==> st.evalcount[t] == 0
    ensures st.lfpIterations == 0 && st.gfpIterations == 0
  {
    State(seq(|c.nodes|, j requires 0 <= j < |c.nodes| => Identity(c, j)),
          seq(|c.nodes|, j requires 0 <= j < |c.nodes| => c.nodes[j].kind == TVar),
          seq(NrOfTypes, _ => 0), 0, 0)
  }

  // ---------------------------------------------------------------------
  // Diamond and Box

  /** The loop over `transitions[f->l]` of mc.c:282-286, after the first
      `|trs|` pairs: starting from all-`bracket`, a source is set to
      `!bracket` when `bracket ^ child[t]`. For Diamond a state ends up in
      the set iff some pair from it reaches the child's set, for Box iff
      every pair from it does. */
  function ModalScan(trs: seq<LtsStore.Transition>, child: StateSet, bracket: bool): (r: StateSet)
    requires forall i :: 0 <= i < |trs| ==> trs[i].s < |child| && trs[i].t < |child|
    ensures |r| == |child|
    ensures forall s :: 0 <= s < |child| ==>
      (r[s] <==> if bracket then (forall i :: 0 <= i < |trs| && trs[i].s == s ==> child[trs[i].t])
                 else (exists i :: 0 <= i < |trs| && trs[i].s == s && child[trs[i].t]))
    decreases |trs|
  {
    if |trs| == 0 then Uniform(|child|, bracket)
    else
      var r0 := ModalScan(trs[..|trs| - 1], child, bracket);
      var tr := trs[|trs| - 1];
      if bracket != child[tr.t] then r0[tr.s := !bracket] else r0
  }

  // ---------------------------------------------------------------------
  // Resets

  function Other(t: nat): nat {
    if t == TMu then TNu else TMu
  }

  /** Emerson-Lei, on entering binder `k` whose surrounding binder has the
      other type: the open descendants of the same type restart from their
      identity (mc.c:293-299). Nothing outside the subtree, no closed node
      and no node of another type is touched, and no flag changes. */
  function ResetOpen(c: Checker, st: State, k: nat): (r: State)
    requires CheckerWf(c) && StateWf(c, st) && k < |c.nodes|
    ensures StateWf(c, r) && r.valid == st.valid && Frame(c, st, r, k) && r.vals[k] == st.vals[k]
    ensures forall j :: 0 <= j < |st.vals| && c.nodes[j].nrOfDeps == 0 ==> r.vals[j] == st.vals[j]
    ensures forall j :: 0 <= j < |st.vals| && c.nodes[j].kind != c.nodes[k].kind ==> r.vals[j] == st.vals[j]
    ensures forall j :: 0 <= j < |st.vals| && k < j < c.nodes[k].childEnd ==>
      c.nodes[j].kind == c.nodes[k].kind && c.nodes[j].nrOfDeps != 0 ==> r.vals[j] == Identity(c, j)
  {
    st.(vals := seq(|st.vals|, j requires 0 <= j < |st.vals| =>
      if k < j < c.nodes[k].childEnd && c.nodes[j].kind == c.nodes[k].kind && c.nodes[j].nrOfDeps != 0
      then Identity(c, j) else st.vals[j]))
  }

  /** Naive policy, after every round of binder `k`: the descendant
      binders that depend on `k`'s variable restart from their identity
      (mc.c:308-311). */
  function ResetDependents(c: Checker, st: State, k: nat): (r: State)
    requires CheckerWf(c) && StateWf(c, st) && k < |c.nodes|
    ensures StateWf(c, r) && r.valid == st.valid && Frame(c, st, r, k) && r.vals[k] == st.vals[k]
    ensures forall j :: 0 <= j < |st.vals| && !IsBinder(c.nodes[j].kind) ==> r.vals[j] == st.vals[j]
    ensures forall j :: 0 <= j < |st.vals| && c.nodes[k].x !in c.nodes[j].deps ==> r.vals[j] == st.vals[j]
    ensures forall j :: 0 <= j < |st.vals| && k < j < c.nodes[k].childEnd ==>
      IsBinder(c.nodes[j].kind) && c.nodes[k].x in c.nodes[j].deps ==> r.vals[j] == Identity(c, j)
  {
    st.(vals := seq(|st.vals|, j requires 0 <= j < |st.vals| =>
      if k < j < c.nodes[k].childEnd && IsBinder(c.nodes[j].kind) && c.nodes[k].x in c.nodes[j].deps
      then Identity(c, j) else st.vals[j]))
  }

  // ---------------------------------------------------------------------
  // eval

  /** `W->evalcount[f->type]++` (mc.c:246): the count of type `t` goes
      up by one and every other count stays. */
  function Counted(st: State, t: nat): (r: State)
    requires t < |st.evalcount|
    ensures r.vals == st.vals && r.valid == st.valid && |r.evalcount| == |st.evalcount|
    ensures r.evalcount[t] == st.evalcount[t] + 1
    ensures forall u :: 0 <= u < |st.evalcount| && u != t ==> r.evalcount[u] == st.evalcount[u]
    ensures r.lfpIterations == st.lfpIterations && r.gfpIterations == st.gfpIterations
  {
    st.(evalcount := st.evalcount[t := st.evalcount[t] + 1])
  }

  /** `(*iterations)++` at the start of a round of a Mu (lfp) or Nu (gfp)
      loop (mc.c:301-303): exactly one of the two counters goes up. */
  function Round(st: State, t: nat): (r: State)
    ensures r.vals == st.vals && r.valid == st.valid && r.evalcount == st.evalcount
    ensures t == TMu ==> r.lfpIterations == st.lfpIterations + 1 && r.gfpIterations == st.gfpIterations
    ensures t != TMu ==> r.gfpIterations == st.gfpIterations + 1 && r.lfpIterations == st.lfpIterations
  {
    if t == TMu then st.(lfpIterations := st.lfpIterations + 1) else st.(gfpIterations := st.gfpIterations + 1)
  }

  /** Only the sets and flags of the nodes in `k`'s range may differ. */
  predicate Frame(c: Checker, st: State, st': State, k: nat)
    requires k < |c.nodes| && StateWf(c, st) && StateWf(c, st')
  {
    forall j :: 0 <= j < |c.nodes| && !(k <= j < c.nodes[k].childEnd) ==>
      st'.vals[j] == st.vals[j] && st'.valid[j] == st.valid[j]
  }

  /** `eval(W, f)` for node `k`. A valid node is returned as is; otherwise
      the node is counted, evaluated, and under Emerson-Lei marked valid
      when it is closed (mc.c:244-246, 326-327), so that it is never
      evaluated again. */
  function Eval(c: Checker, st: State, k: nat, fuel: nat): (r: Result<State>)
    requires CheckerWf(c) && StateWf(c, st) && k < |c.nodes|
    ensures r.Ok? ==> StateWf(c, r.value) && Frame(c, st, r.value, k)
    ensures r.Ok? && c.policy == Naive ==> r.value.valid == st.valid
    ensures st.valid[k] ==> r == Ok(st)
    ensures r.Ok? && c.policy == EmersonLei && c.nodes[k].nrOfDeps == 0 ==> r.value.valid[k]
    decreases c.nodes[k].childEnd - k, 2, 0
  {
    assert NodeWf(c.nodes, k);
    if st.valid[k] then Ok(st)
    else
      var n := c.nodes[k];
      var r :- EvalNode(c, Counted(st, n.kind), k, fuel);
      Ok(if c.policy == EmersonLei && n.nrOfDeps == 0 then r.(valid := r.valid[k := true]) else r)
  }

  /** The `switch` of `eval`: constants and variables leave the state as
      it is, every other node type has its own case. */
  function EvalNode(c: Checker, st: State, k: nat, fuel: nat): (r: Result<State>)
    requires CheckerWf(c) && StateWf(c, st) && k < |c.nodes|
    ensures r.Ok? ==> StateWf(c, r.value) && Frame(c, st, r.value, k)
    ensures r.Ok? && c.policy == Naive ==> r.value.valid == st.valid
    decreases c.nodes[k].childEnd - k, 1, 1
  {
    var t := c.nodes[k].kind;
    if IsBinop(t) then EvalBinop(c, st, k, fuel)
    else if IsModal(t) then EvalModal(c, st, k, fuel)
    else if IsBinder(t) then EvalBinder(c, st, k, fuel)
    else Ok(st)
  }

  /** And/Or (mc.c:254-276): both operands, then their intersection or
      union into the node's own set. */
  function EvalBinop(c: Checker, st: State, k: nat, fuel: nat): (r: Result<State>)
    requires CheckerWf(c) && StateWf(c, st) && k < |c.nodes| && IsBinop(c.nodes[k].kind)
    ensures r.Ok? ==> StateWf(c, r.value) && Frame(c, st, r.value, k)
    ensures r.Ok? && c.policy == Naive ==> r.value.valid == st.valid
    decreases c.nodes[k].childEnd - k, 1, 0
  {
    assert NodeWf(c.nodes, k);
    assert NodeWf(c.nodes, k + 1);
    var s1 :- Eval(c, st, k + 1, fuel);
    var s2 :- Eval(c, s1, c.nodes[k + 1].childEnd, fuel);
    var a := Value(c, s2, k + 1);
    var b := Value(c, s2, c.nodes[k + 1].childEnd);
    Ok(s2.(vals := s2.vals[k := if c.nodes[k].kind == TAnd then Meet(a, b) else Join(a, b)]))
  }

  /** Diamond/Box (mc.c:277-288): the operand, then the scan over the
      transitions of the node's label. */
  function EvalModal(c: Checker, st: State, k: nat, fuel: nat): (r: Result<State>)
    requires CheckerWf(c) && StateWf(c, st) && k < |c.nodes| && IsModal(c.nodes[k].kind)
    ensures r.Ok? ==> StateWf(c, r.value) && Frame(c, st, r.value, k)
    ensures r.Ok? && c.policy == Naive ==> r.value.valid == st.valid
    decreases c.nodes[k].childEnd - k, 1, 0
  {
    assert NodeWf(c.nodes, k);
    var s1 :- Eval(c, st, k + 1, fuel);
    var trs := LtsStore.TransitionsFor(c.store, c.nodes[k].l);
    Ok(s1.(vals := s1.vals[k := ModalScan(trs, Value(c, s1, k + 1), c.nodes[k].kind == TBracket)]))
  }

  /** Mu/Nu (mc.c:289-314): under Emerson-Lei, the reset on alternation,
      then the fixpoint loop. */
  function EvalBinder(c: Checker, st: State, k: nat, fuel: nat): (r: Result<State>)
    requires CheckerWf(c) && StateWf(c, st) && k < |c.nodes| && IsBinder(c.nodes[k].kind)
    ensures r.Ok? ==> StateWf(c, r.value) && Frame(c, st, r.value, k)
    ensures r.Ok? && c.policy == Naive ==> r.value.valid == st.valid
    decreases c.nodes[k].childEnd - k, 1, 0
  {
    var n := c.nodes[k];
    var s1 := if c.policy == EmersonLei && n.surrounding == Other(n.kind) then ResetOpen(c, st, k) else st;
    Fixpoint(c, s1, k, fuel, fuel)
  }

  /** The `do ... while (!done)` loop of a binder, with at most `rounds`
      rounds left. */
  function Fixpoint(c: Checker, st: State, k: nat, fuel: nat, rounds: nat): (r: Result<State>)
    requires CheckerWf(c) && StateWf(c, st) && k < |c.nodes| && IsBinder(c.nodes[k].kind)
    ensures r.Ok? ==> StateWf(c, r.value) && Frame(c, st, r.value, k)
    ensures r.Ok? && c.policy == Naive ==> r.value.valid == st.valid
    decreases c.nodes[k].childEnd - k, 0, rounds
  {
    assert NodeWf(c.nodes, k);
    if rounds == 0 then Err("fixpoint not reached within the round bound")
    else
      var s2 :- Eval(c, Round(st, c.nodes[k].kind), k + 1, fuel);
      var done := Value(c, s2, k + 1) == s2.vals[k];
      var s4 := EndOfRound(c, s2, k);
      if done then Ok(s4) else Fixpoint(c, s4, k, fuel, rounds - 1)
  }

  /** The end of a round of binder `k` (mc.c:305-311): unless the body is
      the binder's own variable, its value is copied into the binder's
      set; under the naive policy the descendant binders that depend on
      `k`'s variable then restart. The binder ends up holding the body's
      value, and no set outside `k`'s range changes. */
  function EndOfRound(c: Checker, st: State, k: nat): (r: State)
    requires CheckerWf(c) && StateWf(c, st) && k < |c.nodes| && IsBinder(c.nodes[k].kind)
    ensures StateWf(c, r) && r.valid == st.valid && Frame(c, st, r, k)
    ensures k + 1 < |c.nodes| && r.vals[k] == Value(c, st, k + 1)
    ensures forall j :: k < j < |st.vals| ==>
      r.vals[j] == (if c.policy == Naive && j < c.nodes[k].childEnd && IsBinder(c.nodes[j].kind) && c.nodes[k].x in c.nodes[j].deps
                    then Identity(c, j) else st.vals[j])
  {
    assert NodeWf(c.nodes, k);
    var s3 := if StorageOf(c, k + 1) == Own(k) then st else st.(vals := st.vals[k := Value(c, st, k + 1)]);
    if c.policy == Naive then ResetDependents(c, s3, k) else s3
  }

  /** Under Emerson-Lei a closed node is evaluated once: evaluating it
      again, from the state its first evaluation left, returns that state
      and counts nothing. It follows from `Eval`'s contract: the first
      evaluation leaves the node valid, and a valid node is returned
      unchanged (the freeze of mc.c:326-327). */
  lemma {:induction false} ClosedEvaluatedOnce(c: Checker, st: State, k: nat, fuel: nat, fuel': nat)
    requires CheckerWf(c) && StateWf(c, st) && k < |c.nodes|
    requires c.policy == EmersonLei && c.nodes[k].nrOfDeps == 0 && Eval(c, st, k, fuel).Ok?
    ensures var s1 := Eval(c, st, k, fuel).value; Eval(c, s1, k, fuel') == Ok(s1)
  {
  }

  /** One turn of the loop of binder `k`: it stops when the round left
      the binder's set as it was, and goes on with one round less
      otherwise. */
  lemma {:induction false} FixpointUnroll(c: Checker, st: State, k: nat, fuel: nat, rounds: nat, rest: nat, s2: State)
    requires CheckerWf(c) && StateWf(c, st) && k + 1 < |c.nodes| && IsBinder(c.nodes[k].kind) && rest + 1 == rounds
    requires Eval(c, Round(st, c.nodes[k].kind), k + 1, fuel) == Ok(s2)
    ensures var s4 := EndOfRound(c, s2, k);
            Fixpoint(c, st, k, fuel, rounds) == if s4.vals[k] == st.vals[k] then Ok(s4) else Fixpoint(c, s4, k, fuel, rest)
  {
    assert NodeWf(c.nodes, k);
    FixpointStep(c, st, k, fuel, rounds, s2);
    RoundKeepsBinder(c, st, k, fuel, s2);
  }

  lemma {:induction false} FixpointStep(c: Checker, st: State, k: nat, fuel: nat, rounds: nat, s2: State)
    requires CheckerWf(c) && StateWf(c, st) && k + 1 < |c.nodes| && IsBinder(c.nodes[k].kind) && 0 < rounds
    requires Eval(c, Round(st, c.nodes[k].kind), k + 1, fuel) == Ok(s2)
    ensures StateWf(c, s2)
    ensures var s4 := EndOfRound(c, s2, k);
            Fixpoint(c, st, k, fuel, rounds) == if Value(c, s2, k + 1) == s2.vals[k] then Ok(s4) else Fixpoint(c, s4, k, fuel, rounds - 1)
  {
  }

  /** A round leaves the binder's own set to the end of the round. */
  lemma {:induction false} RoundKeepsBinder(c: Checker, st: State, k: nat, fuel: nat, s2: State)
    requires CheckerWf(c) && StateWf(c, st) && k + 1 < |c.nodes| && IsBinder(c.nodes[k].kind)
    requires Eval(c, Round(st, c.nodes[k].kind), k + 1, fuel) == Ok(s2)
    ensures StateWf(c, s2) && s2.vals[k] == st.vals[k] && EndOfRound(c, s2, k).vals[k] == Value(c, s2, k + 1)
  {
    assert Frame(c, Round(st, c.nodes[k].kind), s2, k + 1);
  }
}
