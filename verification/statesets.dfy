/** State sets (mc.c:124-140): one boolean cell per state of the LTS.
    The C program stores them as `char` arrays of length `nr_of_states`;
    here a set is a sequence of booleans of that length. */
module StateSets {

  type StateSet = seq<bool>

  /** `s_reset(set, v)`: every cell holds `v`. Also gives the two shared
      constants `False` and `True` (mc.c:211-212). */
  function Uniform(n: nat, v: bool): (r: StateSet)
    ensures |r| == n
    ensures forall s :: 0 <= s < n ==> r[s] == v
  {
    seq(n, _ => v)
  }

  /** Every state of `a` is a state of `b`. */
  predicate Subset(a: StateSet, b: StateSet)
    requires |a| == |b|
  {
    forall s :: 0 <= s < |a| ==> a[s] ==> b[s]
  }

  /** Pointwise conjunction (mc.c:269-271). */
  function Meet(a: StateSet, b: StateSet): (r: StateSet)
    requires |a| == |b|
    ensures |r| == |a|
    ensures forall s :: 0 <= s < |a| ==> (r[s] <==> a[s] && b[s])
  {
    seq(|a|, s requires 0 <= s < |a| => a[s] && b[s])
  }

  /** Pointwise disjunction (mc.c:272-274). */
  function Join(a: StateSet, b: StateSet): (r: StateSet)
    requires |a| == |b|
    ensures |r| == |a|
    ensures forall s :: 0 <= s < |a| ==> (r[s] <==> a[s] || b[s])
  {
    seq(|a|, s requires 0 <= s < |a| => a[s] || b[s])
  }

  /** Number of states in the set; `main` prints it as
      `nr_of_satisfying_states` (mc.c:414-416). */
  function Count(a: StateSet): (r: nat)
    ensures r <= |a|
  {
    if |a| == 0 then 0 else Count(a[..|a| - 1]) + (if a[|a| - 1] then 1 else 0)
  }

  /** A set grows by at least one state whenever it strictly grows. */
  lemma {:induction false} CountStrictlyMonotone(a: StateSet, b: StateSet)
    requires |a| == |b| && Subset(a, b)
    ensures Count(a) <= Count(b)
    ensures a != b ==> Count(a) < Count(b)
    decreases |a|
  {
    if |a| > 0 {
      var k := |a| - 1;
      CountStrictlyMonotone(a[..k], b[..k]);
      assert a == a[..k] + [a[k]] && b == b[..k] + [b[k]];
    }
  }

  /** The full set holds every state. */
  lemma {:induction false} CountFull(a: StateSet)
    requires Count(a) == |a|
    ensures forall s :: 0 <= s < |a| ==> a[s]
    decreases |a|
  {
    if |a| > 0 {
      var k := |a| - 1;
      assert Count(a[..k]) <= k;
      CountFull(a[..k]);
      assert forall s :: 0 <= s < k ==> a[..k][s] == a[s];
    }
  }

  /** `s_equal` compares the two arrays cell by cell (`memcmp`, mc.c:133):
      the answer is value equality. */
  method Equal(a: StateSet, b: StateSet) returns (eq: bool)
    requires |a| == |b|
    ensures eq <==> a == b
  {
    var i := 0;
    while i < |a|
      invariant 0 <= i <= |a|
      invariant a[..i] == b[..i]
    {
      if a[i] != b[i] {
        return false;
      }
      assert a[..i + 1] == a[..i] + [a[i]] && b[..i + 1] == b[..i] + [b[i]];
      i := i + 1;
    }
    assert a == a[..i] && b == b[..i];
    return true;
  }

  /** The empty count means the empty set. */
  lemma {:induction false} CountEmpty(a: StateSet)
    requires Count(a) == 0
    ensures forall s :: 0 <= s < |a| ==> !a[s]
    decreases |a|
  {
    if |a| > 0 {
      var k := |a| - 1;
      CountEmpty(a[..k]);
      assert forall s :: 0 <= s < k ==> a[..k][s] == a[s];
    }
  }

  /** Mutual inclusion is equality. */
  lemma {:induction false} SubsetAntisymmetric(a: StateSet, b: StateSet)
    requires |a| == |b| && Subset(a, b) && Subset(b, a)
    ensures a == b
  {
  }
}
