/** The LTS store (mc.c:45-122): edge lines `(s,"label",t)` are parsed by a
    small character state machine, labels are interned, and the edges are
    regrouped from per-source runs into one `(s, t)` array per label.

    The header `des (I,T,S)` is read by `fscanf` and is an input here
    (`Header`); the file is given as its sequence of edge lines, each
    without its terminating newline. */
module LtsStore {
  import opened Results
  import Labels

  datatype Header = Header(initial: nat, nrOfTransitions: nat, nrOfStates: nat)

  /** A parsed edge line, label still as text. */
  datatype RawEdge = RawEdge(s: nat, name: string, t: nat)

  /** An edge after label interning. */
  datatype Edge = Edge(s: nat, l: nat, t: nat)

  /** The state of the line scanner of mc.c:57-90: automaton state,
      the two numbers read so far and the label characters. */
  datatype Scan = Scan(state: nat, s: nat, text: string, t: nat)

  predicate IsDigit(c: char) {
    '0' <= c <= '9'
  }

  function DigitValue(c: char): nat
    requires IsDigit(c)
  {
    (c as int - '0' as int) as nat
  }

  /** One character of the scanner (mc.c:59-89). Each failing `assert`
      becomes `Err`. */
  function Step(sc: Scan, c: char): Result<Scan>
  {
    match sc.state
    case 0 =>
      if c == '(' then Ok(Scan(1, 0, [], 0)) else Err("expected '('")
    case 1 =>
      if IsDigit(c) then Ok(sc.(s := 10 * sc.s + DigitValue(c)))
      else if c == ',' then Ok(sc.(state := 2))
      else Err("expected ',' after source state")
    case 2 =>
      if c == '"' then Ok(sc.(state := 3)) else Err("expected '\"'")
    case 3 =>
      if c == '"' then Ok(sc.(state := 4)) else Ok(sc.(text := sc.text + [c]))
    case 4 =>
      if c == ',' then Ok(sc.(state := 5)) else Err("expected ',' after label")
    case 5 =>
      if IsDigit(c) then Ok(sc.(t := 10 * sc.t + DigitValue(c)))
      else if c == ')' then Ok(sc)
      else Err("expected ')'")
    case _ =>
      Err("bad scanner state")
  }

  /** The scanner run over a sequence of characters. */
  function Run(sc: Scan, cs: seq<char>): Result<Scan>
    decreases |cs|
  {
    if |cs| == 0 then Ok(sc)
    else
      match Step(sc, cs[0])
      case Ok(sc') => Run(sc', cs[1..])
      case Err(m) => Err(m)
  }

  /** One edge line. The line may end anywhere after the closing quote of
      the label: `s`, `t` and the label index are reset at `(`, so a line
      that stops in state 4 or before the digits of state 5 has target 0.
      A line that stops earlier is rejected: the C loop would read the
      label buffer left by an earlier line (and, without a `(`, its numbers
      too). The label is what `label_id` sees: the characters up to the
      first NUL. */
  function ParseLine(line: seq<char>): Result<RawEdge>
  {
    var sc :- Run(Scan(0, 0, [], 0), line);
    if sc.state != 4 && sc.state != 5 then Err("incomplete edge line")
    else Ok(RawEdge(sc.s, Labels.CStr(sc.text, 0), sc.t))
  }

  // ---------------------------------------------------------------------
  // Printing an edge line, and the round trip

  function DigitChar(d: nat): char
    requires d < 10
  {
    ('0' as int + d) as char
  }

  /** Decimal digits of `n`, most significant first. */
  function Decimal(n: nat): (r: seq<char>)
    ensures |r| > 0 && forall k :: 0 <= k < |r| ==> IsDigit(r[k])
    decreases n
  {
    if n < 10 then [DigitChar(n)] else Decimal(n / 10) + [DigitChar(n % 10)]
  }

  /** The line `(s,"label",t)`. */
  function FormatLine(e: RawEdge): seq<char>
  {
    ['('] + Decimal(e.s) + [',', '"'] + e.name + ['"', ','] + Decimal(e.t) + [')']
  }

  lemma {:induction false} RunAppend(sc: Scan, a: seq<char>, b: seq<char>)
    ensures Run(sc, a + b) == (match Run(sc, a) case Ok(sc') => Run(sc', b) case Err(m) => Err(m))
    decreases |a|
  {
    if |a| > 0 {
      assert (a + b)[0] == a[0] && (a + b)[1..] == a[1..] + b;
      match Step(sc, a[0])
      case Ok(sc') => RunAppend(sc', a[1..], b);
      case Err(m) =>
    } else {
      assert a + b == b;
    }
  }

  /** The number field a digit goes to: `s` in state 1, `t` in state 5. */
  function Field(sc: Scan): nat {
    if sc.state == 1 then sc.s else sc.t
  }

  function WithField(sc: Scan, v: nat): Scan {
    if sc.state == 1 then sc.(s := v) else sc.(t := v)
  }

  function Pow10(k: nat): nat
  {
    if k == 0 then 1 else 10 * Pow10(k - 1)
  }

  /** A digit read in state 1 or 5 shifts it into the field. */
  lemma {:induction false} RunDigit(sc: Scan, d: nat)
    requires (sc.state == 1 || sc.state == 5) && d < 10
    ensures Run(sc, [DigitChar(d)]) == Ok(WithField(sc, 10 * Field(sc) + d))
  {
    assert [DigitChar(d)][1..] == [];
  }

  lemma {:induction false} ShiftDigits(v: nat, p: nat, n: nat)
    ensures 10 * (v * p + n / 10) + n % 10 == v * (10 * p) + n
  {
    assert 10 * (v * p) == v * (10 * p);
  }

  /** Reading the digits of `n` in state 1 (5) accumulates `n` into the
      source (target) field. */
  lemma {:induction false} RunDigits(sc: Scan, n: nat)
    requires sc.state == 1 || sc.state == 5
    ensures Run(sc, Decimal(n)) == Ok(WithField(sc, Field(sc) * Pow10(|Decimal(n)|) + n))
    decreases n
  {
    if n < 10 {
      RunDigit(sc, n);
    } else {
      var p := Pow10(|Decimal(n / 10)|);
      var sc1 := WithField(sc, Field(sc) * p + n / 10);
      RunDigits(sc, n / 10);
      RunAppend(sc, Decimal(n / 10), [DigitChar(n % 10)]);
      RunDigit(sc1, n % 10);
      ShiftDigits(Field(sc), p, n);
      assert WithField(sc1, 10 * Field(sc1) + n % 10) == WithField(sc, Field(sc) * Pow10(|Decimal(n)|) + n);
    }
  }

  /** Reading label characters in state 3 appends them. */
  lemma {:induction false} RunLabel(sc: Scan, w: string)
    requires sc.state == 3 && '"' !in w
    ensures Run(sc, w) == Ok(sc.(text := sc.text + w))
    decreases |w|
  {
    if |w| == 0 {
      assert sc.text + w == sc.text;
    } else {
      assert w == [w[0]] + w[1..];
      RunLabel(sc.(text := sc.text + [w[0]]), w[1..]);
      assert sc.text + [w[0]] + w[1..] == sc.text + w;
    }
  }

  /** Digits read into a field that starts at 0 leave the number there. */
  lemma {:induction false} RunFreshDigits(sc: Scan, n: nat)
    requires (sc.state == 1 || sc.state == 5) && Field(sc) == 0
    ensures Run(sc, Decimal(n)) == Ok(WithField(sc, n))
  {
    RunDigits(sc, n);
    assert Field(sc) * Pow10(|Decimal(n)|) == 0;
  }

  /** Parsing a printed edge line gives the edge back, provided the label
      has no quote (which would end it) and no NUL (which would cut it). */
  lemma {:induction false} ParseFormatLine(e: RawEdge)
    requires '"' !in e.name && Labels.NulFree(e.name)
    ensures ParseLine(FormatLine(e)) == Ok(e)
  {
    var head := ['('] + Decimal(e.s) + [',', '"'];
    var tail := e.name + ['"', ','] + Decimal(e.t) + [')'];
    ParseHead(e.s);
    ParseTail(e.s, e.name, e.t);
    RunSeq(Scan(0, 0, [], 0), head, tail, Scan(3, e.s, [], 0), Scan(5, e.s, e.name, e.t));
    assert FormatLine(e) == head + tail;
    CStrWhole(e.name);
  }

  /** A line cut after the closing quote of the label is the edge to
      state 0: the target was reset at `(` and no digit follows. */
  lemma {:induction false} ParseWithoutTarget(s: nat, w: string)
    requires '"' !in w && Labels.NulFree(w)
    ensures ParseLine(['('] + Decimal(s) + [',', '"'] + w + ['"']) == Ok(RawEdge(s, w, 0))
  {
    var head := ['('] + Decimal(s) + [',', '"'];
    ParseHead(s);
    RunLabel(Scan(3, s, [], 0), w);
    assert [] + w == w;
    assert Run(Scan(3, s, w, 0), ['"']) == Ok(Scan(4, s, w, 0)) by {
      assert ['"'][1..] == [];
    }
    RunSeq(Scan(3, s, [], 0), w, ['"'], Scan(3, s, w, 0), Scan(4, s, w, 0));
    RunSeq(Scan(0, 0, [], 0), head, w + ['"'], Scan(3, s, [], 0), Scan(4, s, w, 0));
    assert head + (w + ['"']) == head + w + ['"'];
    CStrWhole(w);
  }

  /** Running two pieces one after the other. */
  lemma {:induction false} RunSeq(sc: Scan, a: seq<char>, b: seq<char>, mid: Scan, end: Scan)
    requires Run(sc, a) == Ok(mid) && Run(mid, b) == Ok(end)
    ensures Run(sc, a + b) == Ok(end)
  {
    RunAppend(sc, a, b);
  }

  /** `(` and the source state leave the source in `s`. */
  lemma {:induction false} ParseSource(s: nat)
    ensures Run(Scan(0, 0, [], 0), ['('] + Decimal(s)) == Ok(Scan(1, s, [], 0))
  {
    var sc1 := Scan(1, 0, [], 0);
    assert Run(Scan(0, 0, [], 0), ['(']) == Ok(sc1) by {
      assert ['('][1..] == [];
    }
    RunFreshDigits(sc1, s);
    RunSeq(Scan(0, 0, [], 0), ['('], Decimal(s), sc1, Scan(1, s, [], 0));
  }

  /** `(`, the source state and `,"` lead to the label state. */
  lemma {:induction false} ParseHead(s: nat)
    ensures Run(Scan(0, 0, [], 0), ['('] + Decimal(s) + [',', '"']) == Ok(Scan(3, s, [], 0))
  {
    ParseSource(s);
    assert Run(Scan(1, s, [], 0), [',', '"']) == Ok(Scan(3, s, [], 0)) by {
      assert [',', '"'][1..] == ['"'] && [',', '"'][1..][1..] == [];
    }
    RunSeq(Scan(0, 0, [], 0), ['('] + Decimal(s), [',', '"'], Scan(1, s, [], 0), Scan(3, s, [], 0));
  }

  /** The label, `",`, the target state and `)` end in the final state. */
  lemma {:induction false} ParseTail(s: nat, w: string, t: nat)
    requires '"' !in w
    ensures Run(Scan(3, s, [], 0), w + ['"', ','] + Decimal(t) + [')']) == Ok(Scan(5, s, w, t))
  {
    RunLabel(Scan(3, s, [], 0), w);
    assert [] + w == w;
    assert Run(Scan(3, s, w, 0), ['"', ',']) == Ok(Scan(5, s, w, 0)) by {
      assert ['"', ','][1..] == [','] && ['"', ','][1..][1..] == [];
    }
    RunSeq(Scan(3, s, [], 0), w, ['"', ','], Scan(3, s, w, 0), Scan(5, s, w, 0));
    var sc4 := Scan(5, s, w, 0);
    RunFreshDigits(sc4, t);
    RunSeq(Scan(3, s, [], 0), w + ['"', ','], Decimal(t), sc4, Scan(5, s, w, t));
    assert Run(Scan(5, s, w, t), [')']) == Ok(Scan(5, s, w, t)) by {
      assert [')'][1..] == [];
    }
    RunSeq(Scan(3, s, [], 0), w + ['"', ','] + Decimal(t), [')'], Scan(5, s, w, t), Scan(5, s, w, t));
  }

  /** A NUL-free string is its own C string. */
  lemma {:induction false} CStrWhole(w: string)
    requires Labels.NulFree(w)
    ensures Labels.CStr(w, 0) == w
  {
    CStrSuffix(w, 0);
    assert w[0..] == w;
  }

  lemma {:induction false} CStrSuffix(w: string, o: nat)
    requires Labels.NulFree(w) && o <= |w|
    ensures Labels.CStr(w, o) == w[o..]
    decreases |w| - o
  {
    if o < |w| {
      CStrSuffix(w, o + 1);
      assert w[o..] == [w[o]] + w[o + 1..];
    }
  }

  // ---------------------------------------------------------------------
  // Reading the edge lines

  /** Parses the edge lines in order, as the loop of mc.c:56-99 does, and
      interns each label into `table` with the corrected `Labels.Intern`
      rather than the scan of mc.c:25 as written; the two agree whenever no
      label is empty (`Labels.LabelIdAsWrittenAgrees`). States outside
      `0..nrOfStates-1` are rejected: the C program would index `sbegin` and
      the state sets out of bounds with them. */
  function ParseEdges(lines: seq<seq<char>>, table: seq<string>, nrOfStates: nat)
    : (r: Result<(seq<Edge>, seq<string>)>)
    ensures r.Ok? ==>
              && |r.value.0| == |lines|
              && table <= r.value.1
              && (forall k :: 0 <= k < |lines| ==>
                    && ParseLine(lines[k]).Ok?
                    && var raw := ParseLine(lines[k]).value;
                       var e := r.value.0[k];
                    && e.s == raw.s && e.t == raw.t && e.s < nrOfStates && e.t < nrOfStates
                    && e.l < |r.value.1| && r.value.1[e.l] == raw.name)
    decreases |lines|
  {
    if |lines| == 0 then Ok(([], table))
    else
      var raw :- ParseLine(lines[0]);
      if raw.s >= nrOfStates || raw.t >= nrOfStates then Err("state out of range")
      else
        var (l, table1) := Labels.Intern(table, raw.name);
        var (rest, table2) :- ParseEdges(lines[1..], table1, nrOfStates);
        var edges := [Edge(raw.s, l, raw.t)] + rest;
        assert forall k :: 1 <= k < |lines| ==> lines[1..][k - 1] == lines[k];
        Ok((edges, table2))
  }

  /** Reading the lines keeps the label names unique. */
  lemma {:induction false} ParseEdgesNoRepeats(lines: seq<seq<char>>, table: seq<string>, nrOfStates: nat)
    requires Labels.NoRepeats(table) && ParseEdges(lines, table, nrOfStates).Ok?
    ensures Labels.NoRepeats(ParseEdges(lines, table, nrOfStates).value.1)
    decreases |lines|
  {
    if |lines| > 0 {
      var raw := ParseLine(lines[0]).value;
      var table1 := Labels.Intern(table, raw.name).1;
      Labels.InternNoRepeats(table, raw.name);
      ParseEdgesNoRepeats(lines[1..], table1, nrOfStates);
    }
  }

  // ---------------------------------------------------------------------
  // Regrouping per label

  datatype Transition = Transition(s: nat, t: nat)

  /** The source states form contiguous runs: an edge between two edges
      with the same source has that source too. */
  predicate SourceRuns(edges: seq<Edge>) {
    forall i, j, k :: 0 <= i < j < k < |edges| && edges[i].s == edges[k].s ==> edges[j].s == edges[i].s
  }

  /** The `(s, t)` pairs of the edges with source `src` and label `l`, in
      file order. */
  function OfSource(edges: seq<Edge>, src: nat, l: nat): seq<Transition>
    decreases |edges|
  {
    if |edges| == 0 then []
    else
      var e := edges[|edges| - 1];
      OfSource(edges[..|edges| - 1], src, l) + (if e.s == src && e.l == l then [Transition(e.s, e.t)] else [])
  }

  /** Reference layout of `transitions[l]`: the `l`-edges grouped by
      ascending source state, each group in file order. */
  function BySource(edges: seq<Edge>, l: nat, n: nat): seq<Transition>
  {
    if n == 0 then [] else BySource(edges, l, n - 1) + OfSource(edges, n - 1, l)
  }

  /** Number of edges labelled `l`. */
  function CountLabel(edges: seq<Edge>, l: nat): nat
    decreases |edges|
  {
    if |edges| == 0 then 0
    else CountLabel(edges[..|edges| - 1], l) + (if edges[|edges| - 1].l == l then 1 else 0)
  }

  lemma {:induction false} OfSourceAppend(a: seq<Edge>, b: seq<Edge>, src: nat, l: nat)
    ensures OfSource(a + b, src, l) == OfSource(a, src, l) + OfSource(b, src, l)
    decreases |b|
  {
    if |b| == 0 {
      assert a + b == a;
    } else {
      var k := |b| - 1;
      assert (a + b)[..|a + b| - 1] == a + b[..k];
      OfSourceAppend(a, b[..k], src, l);
    }
  }

  lemma {:induction false} OfSourceNone(edges: seq<Edge>, src: nat, l: nat)
    requires forall k :: 0 <= k < |edges| ==> edges[k].s != src
    ensures OfSource(edges, src, l) == []
    decreases |edges|
  {
    if |edges| > 0 {
      OfSourceNone(edges[..|edges| - 1], src, l);
    }
  }

  /** When the `src`-edges all lie in `[b, e)`, that slice holds all of them. */
  lemma {:induction false} OfSourceRun(edges: seq<Edge>, src: nat, l: nat, b: nat, e: nat)
    requires b <= e <= |edges|
    requires forall k :: 0 <= k < |edges| && edges[k].s == src ==> b <= k < e
    ensures OfSource(edges, src, l) == OfSource(edges[b..e], src, l)
  {
    assert edges == edges[..b] + edges[b..e] + edges[e..];
    OfSourceAppend(edges[..b] + edges[b..e], edges[e..], src, l);
    OfSourceAppend(edges[..b], edges[b..e], src, l);
    OfSourceNone(edges[..b], src, l);
    OfSourceNone(edges[e..], src, l);
  }

  lemma {:induction false} CountLabelAppend(a: seq<Edge>, b: seq<Edge>, l: nat)
    ensures CountLabel(a + b, l) == CountLabel(a, l) + CountLabel(b, l)
    decreases |b|
  {
    if |b| == 0 {
      assert a + b == a;
    } else {
      var k := |b| - 1;
      assert (a + b)[..|a + b| - 1] == a + b[..k];
      CountLabelAppend(a, b[..k], l);
    }
  }

  /** Number of `l`-edges whose source is below `n`. */
  function CountBelow(edges: seq<Edge>, l: nat, n: nat): nat
    decreases |edges|
  {
    if |edges| == 0 then 0
    else
      var e := edges[|edges| - 1];
      CountBelow(edges[..|edges| - 1], l, n) + (if e.l == l && e.s < n then 1 else 0)
  }

  lemma {:induction false} CountBelowStep(edges: seq<Edge>, l: nat, n: nat)
    ensures CountBelow(edges, l, n + 1) == CountBelow(edges, l, n) + |OfSource(edges, n, l)|
    decreases |edges|
  {
    if |edges| > 0 {
      CountBelowStep(edges[..|edges| - 1], l, n);
    }
  }

  lemma {:induction false} BySourceLength(edges: seq<Edge>, l: nat, n: nat)
    ensures |BySource(edges, l, n)| == CountBelow(edges, l, n)
    decreases n
  {
    if n == 0 {
      CountBelowZero(edges, l);
    } else {
      assert BySource(edges, l, n) == BySource(edges, l, n - 1) + OfSource(edges, n - 1, l);
      BySourceLength(edges, l, n - 1);
      CountBelowStep(edges, l, n - 1);
    }
  }

  lemma {:induction false} CountBelowZero(edges: seq<Edge>, l: nat)
    ensures CountBelow(edges, l, 0) == 0
    decreases |edges|
  {
    if |edges| > 0 {
      CountBelowZero(edges[..|edges| - 1], l);
    }
  }

  lemma {:induction false} CountBelowAll(edges: seq<Edge>, l: nat, n: nat)
    requires forall k :: 0 <= k < |edges| ==> edges[k].s < n
    ensures CountBelow(edges, l, n) == CountLabel(edges, l)
    decreases |edges|
  {
    if |edges| > 0 {
      CountBelowAll(edges[..|edges| - 1], l, n);
    }
  }

  /** Some edge goes from `src` to `t` with label `l`. */
  predicate HasEdge(edges: seq<Edge>, src: nat, l: nat, t: nat)
    decreases |edges|
  {
    |edges| > 0 && (edges[|edges| - 1] == Edge(src, l, t) || HasEdge(edges[..|edges| - 1], src, l, t))
  }

  lemma {:induction false} HasEdgeIff(edges: seq<Edge>, src: nat, l: nat, t: nat)
    ensures HasEdge(edges, src, l, t) <==> exists k :: 0 <= k < |edges| && edges[k] == Edge(src, l, t)
    decreases |edges|
  {
    if |edges| > 0 {
      var m := |edges| - 1;
      HasEdgeIff(edges[..m], src, l, t);
      if exists k :: 0 <= k < m && edges[..m][k] == Edge(src, l, t) {
        var k :| 0 <= k < m && edges[..m][k] == Edge(src, l, t);
        assert edges[k] == Edge(src, l, t);
      }
      if exists k :: 0 <= k < |edges| && edges[k] == Edge(src, l, t) {
        var k :| 0 <= k < |edges| && edges[k] == Edge(src, l, t);
        if k < m {
          assert edges[..m][k] == edges[k];
        }
      }
    }
  }

  lemma {:induction false} InOfSource(edges: seq<Edge>, src: nat, l: nat, tr: Transition)
    ensures tr in OfSource(edges, src, l) <==> tr.s == src && HasEdge(edges, tr.s, l, tr.t)
    decreases |edges|
  {
    if |edges| > 0 {
      var m := |edges| - 1;
      var e := edges[m];
      assert OfSource(edges, src, l)
             == OfSource(edges[..m], src, l) + (if e.s == src && e.l == l then [Transition(e.s, e.t)] else []);
      InOfSource(edges[..m], src, l, tr);
    }
  }

  /** `transitions[l]` holds `(s, t)` exactly for the `l`-edges from `s` to
      `t` with `s` below `n`. */
  lemma {:induction false} InBySource(edges: seq<Edge>, l: nat, n: nat, tr: Transition)
    ensures tr in BySource(edges, l, n) <==> tr.s < n && HasEdge(edges, tr.s, l, tr.t)
    decreases n
  {
    if n > 0 {
      InBySource(edges, l, n - 1, tr);
      InBySourceNext(edges, l, n - 1, n, tr);
    }
  }

  /** The inductive step of `InBySource`, from the first `m` states to the
      first `n = m + 1`. */
  lemma {:induction false} InBySourceNext(edges: seq<Edge>, l: nat, m: nat, n: nat, tr: Transition)
    requires n == m + 1
    requires tr in BySource(edges, l, m) <==> tr.s < m && HasEdge(edges, tr.s, l, tr.t)
    ensures tr in BySource(edges, l, n) <==> tr.s < n && HasEdge(edges, tr.s, l, tr.t)
  {
    InOfSource(edges, m, l, tr);
    InBySourceStep(edges, l, m, n, tr);
  }

  /** Membership in the grouped array of the first `n = m + 1` states. */
  lemma {:induction false} InBySourceStep(edges: seq<Edge>, l: nat, m: nat, n: nat, tr: Transition)
    requires n == m + 1
    ensures tr in BySource(edges, l, n) <==> tr in BySource(edges, l, m) || tr in OfSource(edges, m, l)
  {
  }

  lemma {:induction false} OfSourceSources(edges: seq<Edge>, src: nat, l: nat)
    ensures forall i :: 0 <= i < |OfSource(edges, src, l)| ==> OfSource(edges, src, l)[i].s == src
    decreases |edges|
  {
    if |edges| > 0 {
      OfSourceSources(edges[..|edges| - 1], src, l);
    }
  }

  /** The grouped array is ordered by source state, and all its sources
      are below `n`. */
  lemma {:induction false} BySourceSorted(edges: seq<Edge>, l: nat, n: nat)
    ensures forall i :: 0 <= i < |BySource(edges, l, n)| ==> BySource(edges, l, n)[i].s < n
    ensures forall i, j :: 0 <= i < j < |BySource(edges, l, n)| ==>
              BySource(edges, l, n)[i].s <= BySource(edges, l, n)[j].s
  {
    if n > 0 {
      var a := BySource(edges, l, n - 1);
      var b := OfSource(edges, n - 1, l);
      var g := a + b;
      assert BySource(edges, l, n) == g;
      BySourceSorted(edges, l, n - 1);
      OfSourceSources(edges, n - 1, l);
      forall i | 0 <= i < |g|
        ensures g[i].s < n
      {
        if i >= |a| {
          assert g[i] == b[i - |a|];
        } else {
          assert g[i] == a[i];
          assert a[i].s < n - 1;
        }
      }
      forall i, j | 0 <= i < j < |g|
        ensures g[i].s <= g[j].s
      {
        if j >= |a| {
          assert g[j] == b[j - |a|];
          if i >= |a| {
            assert g[i] == b[i - |a|];
          } else {
            assert g[i] == a[i];
          }
        } else {
          assert g[i] == a[i] && g[j] == a[j];
        }
      }
    }
  }

  /** The `q`-edges among the first `upto` edges are exactly the indices
      `[b, en)`; `b == -1` says there are none. */
  predicate RunOf(edges: seq<Edge>, q: nat, upto: nat, b: int, en: int)
    requires upto <= |edges|
  {
    if b == -1 then forall k :: 0 <= k < upto ==> edges[k].s != q
    else 0 <= b <= en <= upto && forall k :: 0 <= k < upto ==> (edges[k].s == q <==> b <= k < en)
  }

  /** First pass of `read_lts` (mc.c:56-100): where each source run
      begins (`sbegin`, -1 for a state without edges) and ends (`send`). */
  method SourceRunBounds(edges: seq<Edge>, nrOfStates: nat) returns (sbegin: seq<int>, send: seq<int>)
    requires forall k :: 0 <= k < |edges| ==> edges[k].s < nrOfStates
    ensures |sbegin| == nrOfStates && |send| == nrOfStates
    ensures forall q :: 0 <= q < nrOfStates ==> -1 <= sbegin[q] < |edges| && 0 <= send[q] <= |edges|
    ensures SourceRuns(edges) ==>
              forall q :: 0 <= q < nrOfStates ==> RunOf(edges, q, |edges|, sbegin[q], send[q])
  {
    sbegin := seq(nrOfStates, _ => -1);
    send := seq(nrOfStates, _ => 0);
    var prev: int := -1;
    var e := 0;
    while e < |edges|
      invariant 0 <= e <= |edges|
      invariant |sbegin| == nrOfStates && |send| == nrOfStates
      invariant prev == (if e == 0 then -1 else edges[e - 1].s)
      invariant forall q :: 0 <= q < nrOfStates ==> -1 <= sbegin[q] < e && 0 <= send[q] <= e
      invariant SourceRuns(edges) ==>
                  forall q :: 0 <= q < nrOfStates ==> RunOf(edges, q, e, sbegin[q], if q == prev then e else send[q])
    {
      var s := edges[e].s;
      if s != prev {
        if SourceRuns(edges) {
          FreshRun(edges, e);
        }
        sbegin := sbegin[s := e];
        if prev >= 0 {
          send := send[prev := e];
        }
        prev := s;
      }
      e := e + 1;
    }
    if |edges| > 0 {
      send := send[prev := |edges|];
    }
  }

  /** With contiguous runs, a source that differs from its predecessor's
      has not been seen before. */
  lemma {:induction false} FreshRun(edges: seq<Edge>, e: nat)
    requires SourceRuns(edges) && 0 <= e < |edges|
    requires e > 0 ==> edges[e - 1].s != edges[e].s
    ensures forall k :: 0 <= k < e ==> edges[k].s != edges[e].s
  {
    forall k | 0 <= k < e
      ensures edges[k].s != edges[e].s
    {
      if k < e - 1 {
        assert edges[e - 1].s != edges[e].s;
      }
    }
  }

  /** Second pass (mc.c:101-105): `transition_counts`. */
  method CountPerLabel(edges: seq<Edge>, nrOfLabels: nat) returns (counts: seq<nat>)
    requires forall k :: 0 <= k < |edges| ==> edges[k].l < nrOfLabels
    ensures |counts| == nrOfLabels
    ensures forall l :: 0 <= l < nrOfLabels ==> counts[l] == CountLabel(edges, l)
  {
    counts := seq(nrOfLabels, _ => 0);
    var e := 0;
    while e < |edges|
      invariant 0 <= e <= |edges| && |counts| == nrOfLabels
      invariant forall l :: 0 <= l < nrOfLabels ==> counts[l] == CountLabel(edges[..e], l)
    {
      var l := edges[e].l;
      assert edges[..e + 1][..e] == edges[..e];
      counts := counts[l := counts[l] + 1];
      e := e + 1;
    }
    assert edges[..|edges|] == edges;
  }

  /** The `l`-edges of `run`, recorded with source `q`. */
  function RunPairs(run: seq<Edge>, q: nat, l: nat): seq<Transition>
    decreases |run|
  {
    if |run| == 0 then []
    else
      var e := run[|run| - 1];
      RunPairs(run[..|run| - 1], q, l) + (if e.l == l then [Transition(q, e.t)] else [])
  }

  lemma {:induction false} RunPairsOfSource(run: seq<Edge>, q: nat, l: nat)
    requires forall k :: 0 <= k < |run| ==> run[k].s == q
    ensures RunPairs(run, q, l) == OfSource(run, q, l)
    decreases |run|
  {
    if |run| > 0 {
      RunPairsOfSource(run[..|run| - 1], q, l);
    }
  }

  /** The inner loop of mc.c:114-119: the edges `[b, en)` of state `q`
      appended to their labels' arrays. */
  method AppendRun(edges: seq<Edge>, transitions: seq<seq<Transition>>, q: nat, b: nat, en: int)
    returns (transitions': seq<seq<Transition>>)
    requires b <= |edges| && en <= |edges|
    requires forall k :: 0 <= k < |edges| ==> edges[k].l < |transitions|
    ensures |transitions'| == |transitions|
    ensures b <= en ==>
              forall l :: 0 <= l < |transitions| ==>
                transitions'[l] == transitions[l] + RunPairs(edges[b..en], q, l)
  {
    transitions' := transitions;
    var k := b;
    while k < en
      invariant b <= k <= |edges| && (b <= en ==> k <= en) && |transitions'| == |transitions|
      invariant forall l :: 0 <= l < |transitions| ==>
                  transitions'[l] == transitions[l] + RunPairs(edges[b..k], q, l)
    {
      var l := edges[k].l;
      var t := edges[k].t;
      assert edges[b..k + 1][..k - b] == edges[b..k];
      transitions' := transitions'[l := transitions'[l] + [Transition(q, t)]];
      k := k + 1;
    }
  }

  /** Third pass (mc.c:106-120): states in ascending order, each run's
      edges appended to the array of their label. */
  method FillPerLabel(edges: seq<Edge>, nrOfLabels: nat, nrOfStates: nat, sbegin: seq<int>, send: seq<int>)
    returns (transitions: seq<seq<Transition>>)
    requires forall k :: 0 <= k < |edges| ==> edges[k].l < nrOfLabels
    requires |sbegin| == nrOfStates && |send| == nrOfStates
    requires forall q :: 0 <= q < nrOfStates ==> -1 <= sbegin[q] < |edges| && 0 <= send[q] <= |edges|
    ensures |transitions| == nrOfLabels
    ensures SourceRuns(edges) && (forall q :: 0 <= q < nrOfStates ==> RunOf(edges, q, |edges|, sbegin[q], send[q])) ==>
              forall l :: 0 <= l < nrOfLabels ==> transitions[l] == BySource(edges, l, nrOfStates)
  {
    ghost var runs := SourceRuns(edges) && forall q :: 0 <= q < nrOfStates ==> RunOf(edges, q, |edges|, sbegin[q], send[q]);
    transitions := seq(nrOfLabels, _ => []);
    var q := 0;
    while q < nrOfStates
      invariant 0 <= q <= nrOfStates && |transitions| == nrOfLabels
      invariant runs ==> forall l :: 0 <= l < nrOfLabels ==> transitions[l] == BySource(edges, l, q)
    {
      transitions := FillState(edges, transitions, q, sbegin[q], send[q]);
      q := q + 1;
    }
  }

  /** One step of the third pass: state `q`'s run `[b, en)`, or nothing
      when `b` is -1, appended to the arrays of the states below it. */
  method FillState(edges: seq<Edge>, transitions: seq<seq<Transition>>, q: nat, b: int, en: int)
    returns (transitions': seq<seq<Transition>>)
    requires forall k :: 0 <= k < |edges| ==> edges[k].l < |transitions|
    requires -1 <= b < |edges| && 0 <= en <= |edges|
    ensures |transitions'| == |transitions|
    ensures SourceRuns(edges) && RunOf(edges, q, |edges|, b, en)
            && (forall l :: 0 <= l < |transitions| ==> transitions[l] == BySource(edges, l, q)) ==>
              forall l :: 0 <= l < |transitions| ==> transitions'[l] == BySource(edges, l, q + 1)
  {
    if b != -1 {
      transitions' := AppendRun(edges, transitions, q, b, en);
      if RunOf(edges, q, |edges|, b, en) && forall l :: 0 <= l < |transitions| ==> transitions[l] == BySource(edges, l, q) {
        RunStep(edges, q, b, en, transitions, transitions');
      }
    } else {
      transitions' := transitions;
      if SourceRuns(edges) && RunOf(edges, q, |edges|, b, en) {
        forall l | 0 <= l < |transitions|
          ensures BySource(edges, l, q + 1) == BySource(edges, l, q)
        {
          OfSourceNone(edges, q, l);
        }
      }
    }
  }

  lemma {:induction false} RunStep(edges: seq<Edge>, q: nat, b: nat, en: int, before: seq<seq<Transition>>, after: seq<seq<Transition>>)
    requires b <= |edges| && RunOf(edges, q, |edges|, b, en)
    requires |after| == |before|
    requires forall l :: 0 <= l < |before| ==> before[l] == BySource(edges, l, q)
    requires b <= en ==> forall l :: 0 <= l < |before| ==> after[l] == before[l] + RunPairs(edges[b..en], q, l)
    ensures forall l :: 0 <= l < |before| ==> after[l] == BySource(edges, l, q + 1)
  {
    assert 0 <= b <= en <= |edges|;
    forall l | 0 <= l < |before|
      ensures after[l] == BySource(edges, l, q + 1)
    {
      RunPairsOfSource(edges[b..en], q, l);
      OfSourceRun(edges, q, l, b, en);
    }
  }

  /** The regrouping of `read_lts` (mc.c:56-120). With contiguous source
      runs, `transitions[l]` holds exactly `counts[l]` pairs: the `l`-edges
      ordered by source, each source's edges in file order. */
  method Regroup(edges: seq<Edge>, nrOfLabels: nat, nrOfStates: nat)
    returns (transitions: seq<seq<Transition>>, counts: seq<nat>)
    requires forall k :: 0 <= k < |edges| ==> edges[k].s < nrOfStates && edges[k].l < nrOfLabels
    ensures |transitions| == nrOfLabels && |counts| == nrOfLabels
    ensures forall l :: 0 <= l < nrOfLabels ==> counts[l] == CountLabel(edges, l)
    ensures SourceRuns(edges) ==>
              forall l :: 0 <= l < nrOfLabels ==>
                transitions[l] == BySource(edges, l, nrOfStates) && |transitions[l]| == counts[l]
  {
    var sbegin, send := SourceRunBounds(edges, nrOfStates);
    counts := CountPerLabel(edges, nrOfLabels);
    transitions := FillPerLabel(edges, nrOfLabels, nrOfStates, sbegin, send);
    forall l | 0 <= l < nrOfLabels
      ensures |BySource(edges, l, nrOfStates)| == CountLabel(edges, l)
    {
      BySourceLength(edges, l, nrOfStates);
      CountBelowAll(edges, l, nrOfStates);
    }
  }

  // ---------------------------------------------------------------------
  // read_lts as a whole, and the per-label lookup of `eval`

  /** The transition store: the header's initial state and state count,
      the label table after reading, and per label id the `(s, t)` array
      with its count. */
  datatype Store = Store(
    initial: nat,
    nrOfStates: nat,
    labels: seq<string>,
    transitions: seq<seq<Transition>>,
    counts: seq<nat>)

  /** The store holds the header's numbers and, for every label id, the
      count of its edges and, with contiguous source runs, exactly its
      edges ordered by source. */
  predicate Regrouped(h: Header, edges: seq<Edge>, store: Store) {
    && store.initial == h.initial && store.nrOfStates == h.nrOfStates
    && |store.transitions| == |store.labels| == |store.counts|
    && (forall l :: 0 <= l < |store.labels| ==> store.counts[l] == CountLabel(edges, l))
    && (SourceRuns(edges) ==>
          forall l :: 0 <= l < |store.labels| ==>
            store.transitions[l] == BySource(edges, l, h.nrOfStates))
  }

  /** `read_lts` (mc.c:45-122) on the first `T` edge lines. Fails when a
      line is missing or malformed, or names a state outside the header's
      range. With contiguous source runs each label's array holds exactly
      its edges, ordered by source. */
  method ReadLts(h: Header, lines: seq<seq<char>>) returns (r: Result<(Store, seq<Edge>)>)
    ensures r.Ok? <==>
              |lines| >= h.nrOfTransitions && ParseEdges(lines[..h.nrOfTransitions], [], h.nrOfStates).Ok?
    ensures r.Ok? ==>
              && (r.value.1, r.value.0.labels) == ParseEdges(lines[..h.nrOfTransitions], [], h.nrOfStates).value
              && Regrouped(h, r.value.1, r.value.0)
  {
    if |lines| < h.nrOfTransitions {
      return Err("missing edge lines");
    }
    var parsed := ParseEdges(lines[..h.nrOfTransitions], [], h.nrOfStates);
    if parsed.Err? {
      return Err(parsed.msg);
    }
    var (edges, table) := parsed.value;
    var transitions, counts := Regroup(edges, |table|, h.nrOfStates);
    return Ok((Store(h.initial, h.nrOfStates, table, transitions, counts), edges));
  }

  /** The edges `eval` walks for label id `l` (mc.c:282-283), bounded: a
      label that only the formula mentions is interned after `read_lts`
      sized the arrays, so the C lookup reads past them
      (`CountLookupAsWritten`); here it has no edges. */
  function TransitionsFor(store: Store, l: nat): seq<Transition>
  {
    if l < |store.transitions| then store.transitions[l] else []
  }

  /** `transition_counts[f->l]` as written: the array has one cell per
      label known when the LTS was read, and the lookup is outside it for a
      later label (`None`). */
  function CountLookupAsWritten(store: Store, l: nat): Option<nat>
  {
    if l < |store.counts| then Some(store.counts[l]) else None
  }

  datatype Option<T> = None | Some(value: T)

  /** A formula label that no edge carries, `<b>true` over an LTS whose only
      label is "a", is interned with id 1 while `transition_counts` has one
      cell: the as-written lookup is out of bounds, `TransitionsFor` gives
      no edges. */
  lemma {:induction false} FormulaOnlyLabelOutOfBounds(store: Store)
    requires store.labels == ["a"] && |store.counts| == 1 && |store.transitions| == 1
    ensures var (l, _) := Labels.Intern(store.labels, "b");
            l == 1 && CountLookupAsWritten(store, l) == None && TransitionsFor(store, l) == []
  {
    assert "b" != "a";
    assert "b" !in store.labels;
  }

  /** The pairs of a label's array are exactly its edges. */
  lemma {:induction false} TransitionsForEdges(store: Store, edges: seq<Edge>, l: nat, tr: Transition)
    requires SourceRuns(edges)
    requires forall k :: 0 <= k < |edges| ==> edges[k].s < store.nrOfStates && edges[k].l < |store.transitions|
    requires forall l' :: 0 <= l' < |store.transitions| ==> store.transitions[l'] == BySource(edges, l', store.nrOfStates)
    ensures tr in TransitionsFor(store, l) <==> exists k :: 0 <= k < |edges| && edges[k] == Edge(tr.s, l, tr.t)
  {
    HasEdgeIff(edges, tr.s, l, tr.t);
    if l < |store.transitions| {
      InBySource(edges, l, store.nrOfStates, tr);
    } else {
      assert forall k :: 0 <= k < |edges| ==> edges[k].l != l;
    }
  }
}
