/** The label table (mc.c:15-43). Label strings are interned to dense ids in
    first-seen order. The C program keeps all names in one growing `char`
    buffer, each name followed by a NUL byte; `label_id` scans that buffer and
    `label_name` walks it. The model keeps the abstract table (a sequence of
    names, index = id) and proves that the buffer-walking code implements it. */
module Labels {

  const NUL: char := 0 as char

  predicate NulFree(s: string) {
    forall k :: 0 <= k < |s| ==> s[k] != NUL
  }

  predicate AllNulFree(names: seq<string>) {
    forall j :: 0 <= j < |names| ==> NulFree(names[j])
  }

  /** Position of the first occurrence of `name`, or `|table|` if absent. */
  function IndexOf(table: seq<string>, name: string): (r: nat)
    ensures r <= |table|
    ensures r < |table| ==> table[r] == name
    ensures forall j :: 0 <= j < r ==> table[j] != name
    decreases |table|
  {
    if |table| == 0 then 0
    else if table[0] == name then 0
    else 1 + IndexOf(table[1..], name)
  }

  /** `IndexOf` is the first position holding `name`. */
  lemma {:induction false} IndexOfIs(table: seq<string>, name: string, i: nat)
    requires i <= |table| && (i < |table| ==> table[i] == name)
    requires forall j :: 0 <= j < i ==> table[j] != name
    ensures IndexOf(table, name) == i
  {
    var r := IndexOf(table, name);
    assert r < |table| ==> table[r] == name;
  }

  /** Abstract `label_id`: the id of `name` and the table afterwards. */
  function Intern(table: seq<string>, name: string): (r: (nat, seq<string>))
    ensures name in table ==>
              && r.0 < |table| && r.1 == table && table[r.0] == name
              && forall j :: 0 <= j < r.0 ==> table[j] != name
    ensures name !in table ==> r.0 == |table| && r.1 == table + [name]
    ensures r.0 < |r.1| && r.1[r.0] == name
  {
    var i := IndexOf(table, name);
    if i < |table| then (i, table) else (|table|, table + [name])
  }

  /** Interning never forgets or renumbers an earlier label. */
  lemma {:induction false} InternExtends(table: seq<string>, name: string)
    ensures table <= Intern(table, name).1
  {
  }

  /** Interning twice gives the same id and leaves the table alone. */
  lemma {:induction false} InternIdempotent(table: seq<string>, name: string)
    ensures var (id, t1) := Intern(table, name);
            Intern(t1, name) == (id, t1)
  {
    var (id, t1) := Intern(table, name);
    assert name in t1;
    if name !in table {
      assert forall j :: 0 <= j < |table| ==> t1[j] == table[j];
    }
  }

  /** No name is listed twice, so a name has one id. */
  predicate NoRepeats(table: seq<string>) {
    forall i, j :: 0 <= i < j < |table| ==> table[i] != table[j]
  }

  /** Interning keeps names unique. */
  lemma {:induction false} InternNoRepeats(table: seq<string>, name: string)
    requires NoRepeats(table)
    ensures NoRepeats(Intern(table, name).1)
  {
    if name !in table {
      var t1 := table + [name];
      forall i, j | 0 <= i < j < |t1|
        ensures t1[i] != t1[j]
      {
        if j == |table| {
          assert t1[i] == table[i];
        }
      }
    }
  }

  // ---------------------------------------------------------------------
  // The NUL-separated buffer

  /** The buffer holding `names`, each followed by NUL. */
  function Flatten(names: seq<string>): seq<char>
    decreases |names|
  {
    if |names| == 0 then []
    else Flatten(names[..|names| - 1]) + names[|names| - 1] + [NUL]
  }

  lemma {:induction false} FlattenSnoc(names: seq<string>, name: string)
    ensures Flatten(names + [name]) == Flatten(names) + name + [NUL]
  {
    assert (names + [name])[..|names|] == names;
  }

  lemma {:induction false} FlattenAppend(a: seq<string>, b: seq<string>)
    ensures Flatten(a + b) == Flatten(a) + Flatten(b)
    decreases |b|
  {
    if |b| == 0 {
      assert a + b == a;
    } else {
      var k := |b| - 1;
      assert (a + b)[..|a + b| - 1] == a + b[..k];
      assert (a + b)[|a + b| - 1] == b[k];
      FlattenAppend(a, b[..k]);
    }
  }

  /** The C string starting at offset `o`: the characters up to the next NUL
      (what `strcmp` and `strlen` see at `&labels[o]`). */
  function CStr(buf: seq<char>, o: nat): (r: string)
    ensures o + |r| <= |buf| || (o >= |buf| && r == [])
    decreases |buf| - o
  {
    if o >= |buf| || buf[o] == NUL then [] else [buf[o]] + CStr(buf, o + 1)
  }

  /** In a buffer that ends with NUL, every C string ends inside it. */
  lemma {:induction false} CStrEndsInside(buf: seq<char>, o: nat)
    requires o < |buf| && buf[|buf| - 1] == NUL
    ensures o + |CStr(buf, o)| < |buf|
    decreases |buf| - o
  {
    if buf[o] != NUL {
      CStrEndsInside(buf, o + 1);
    }
  }

  /** The C string at the start of `w` in `a + w + NUL + b` is `w`. */
  lemma {:induction false} CStrOf(a: seq<char>, w: string, b: seq<char>)
    requires NulFree(w)
    ensures CStr(a + w + [NUL] + b, |a|) == w
    decreases |w|
  {
    var buf := a + w + [NUL] + b;
    if |w| == 0 {
      assert buf[|a|] == NUL;
    } else {
      assert buf == (a + [w[0]]) + w[1..] + [NUL] + b;
      assert buf[|a|] == w[0];
      CStrOf(a + [w[0]], w[1..], b);
      assert w == [w[0]] + w[1..];
    }
  }

  /** The buffer of the first `i + 1` names extends that of the first `i`. */
  lemma {:induction false} FlattenStep(names: seq<string>, i: nat)
    requires i < |names|
    ensures Flatten(names[..i + 1]) == Flatten(names[..i]) + names[i] + [NUL]
  {
    assert names[..i + 1][..i] == names[..i];
  }

  /** The buffer split around entry `i`. */
  lemma {:induction false} FlattenSplit(names: seq<string>, i: nat)
    requires i < |names|
    ensures Flatten(names) == Flatten(names[..i]) + names[i] + [NUL] + Flatten(names[i + 1..])
  {
    var front, back := names[..i + 1], names[i + 1..];
    assert front + back == names;
    FlattenAppend(front, back);
    FlattenStep(names, i);
  }

  /** Offset of entry `i` in the buffer of `names`. */
  function Offset(names: seq<string>, i: nat): nat
    requires i <= |names|
  {
    if i == 0 then 0 else Offset(names, i - 1) + |names[i - 1]| + 1
  }

  lemma {:induction false} OffsetIsPrefixLength(names: seq<string>, i: nat)
    requires i <= |names|
    ensures Offset(names, i) == |Flatten(names[..i])|
  {
    if i == 0 {
      assert names[..0] == [];
    } else {
      OffsetIsPrefixLength(names, i - 1);
      FlattenStep(names, i - 1);
    }
  }

  /** The whole buffer ends at the offset past the last entry. */
  lemma OffsetEnd(names: seq<string>)
    ensures Offset(names, |names|) == |Flatten(names)|
  {
    OffsetIsPrefixLength(names, |names|);
    assert names[..|names|] == names;
  }

  /** Entry `i` is the C string at its offset, and ends inside the buffer. */
  lemma {:induction false} EntryAt(names: seq<string>, i: nat)
    requires i < |names| && AllNulFree(names)
    ensures Offset(names, i) + |names[i]| < |Flatten(names)|
    ensures CStr(Flatten(names), Offset(names, i)) == names[i]
  {
    OffsetIsPrefixLength(names, i);
    FlattenSplit(names, i);
    CStrOf(Flatten(names[..i]), names[i], Flatten(names[i + 1..]));
  }

  /** `label_id` on the buffer (mc.c:23-36), with the end-of-table test
      `o < labels_size` alone; the C loop also stops at an empty entry, see
      `LabelIdAsWritten`. The new name is appended after the last entry. */
  method LabelId(buf: seq<char>, name: string, ghost names: seq<string>)
    returns (id: nat, buf': seq<char>)
    requires buf == Flatten(names) && AllNulFree(names) && NulFree(name)
    ensures (id, buf') == (Intern(names, name).0, Flatten(Intern(names, name).1))
    ensures LabelName(buf', id) == name
  {
    var i: nat := 0;
    var o: nat := 0;
    if |names| > 0 {
      EntryAt(names, 0);
    }
    while o < |buf|
      invariant i <= |names|
      invariant o == Offset(names, i)
      invariant forall j :: 0 <= j < i ==> names[j] != name
      invariant i < |names| <==> o < |buf|
      decreases |buf| - o
    {
      EntryAt(names, i);
      var cur := CStr(buf, o);
      if cur == name {
        id, buf' := i, buf;
        IndexOfIs(names, name, i);
        LabelNameOfFlatten(names, i);
        return;
      }
      i := i + 1;
      o := o + |cur| + 1;
      if i < |names| {
        EntryAt(names, i);
      } else {
        OffsetEnd(names);
      }
    }
    IndexOfIs(names, name, i);
    id, buf' := i, buf + name + [NUL];
    FlattenSnoc(names, name);
    LabelNameOfFlatten(names + [name], i);
  }

  // ---------------------------------------------------------------------
  // label_name

  /** Walk `id` entries forward from offset `o` and read the name there. */
  function NameAt(buf: seq<char>, o: nat, id: nat): string
    decreases id
  {
    if id == 0 then CStr(buf, o) else NameAt(buf, o + |CStr(buf, o)| + 1, id - 1)
  }

  /** `label_name` (mc.c:38-43). */
  function LabelName(buf: seq<char>, id: nat): string
  {
    NameAt(buf, 0, id)
  }

  lemma {:induction false} NameAtFlatten(names: seq<string>, i: nat, id: nat)
    requires AllNulFree(names) && i + id < |names|
    ensures NameAt(Flatten(names), Offset(names, i), id) == names[i + id]
    decreases id
  {
    EntryAt(names, i);
    if id > 0 {
      NameAtFlatten(names, i + 1, id - 1);
    }
  }

  /** `label_name` is the inverse of `label_id`: it reads back entry `id`. */
  lemma {:induction false} LabelNameOfFlatten(names: seq<string>, id: nat)
    requires AllNulFree(names) && id < |names|
    ensures LabelName(Flatten(names), id) == names[id]
  {
    NameAtFlatten(names, 0, id);
  }

  // ---------------------------------------------------------------------
  // label_id as written

  /** The scan loop of `label_id` exactly as written (mc.c:25-30): besides the
      end of the buffer it also stops at an entry whose first byte is NUL,
      i.e. at an interned empty name. Returns the entry count, the offset
      and whether `name` was found. */
  function ScanAsWritten(buf: seq<char>, name: string, i: nat, o: nat): (r: (nat, nat, bool))
    requires |buf| == 0 || buf[|buf| - 1] == NUL
    requires o <= |buf|
    ensures r.1 <= |buf|
    decreases |buf| - o
  {
    if o < |buf| && buf[o] != NUL then
      CStrEndsInside(buf, o);
      var cur := CStr(buf, o);
      if cur == name then (i, o, true) else ScanAsWritten(buf, name, i + 1, o + |cur| + 1)
    else
      (i, o, false)
  }

  /** `n` fresh bytes. */
  function Zeros(n: nat): (r: seq<char>)
    ensures |r| == n
  {
    seq(n, _ => NUL)
  }

  /** `label_id` as written (mc.c:23-36), returning the id, the buffer and
      `nr_of_labels`. When the name is not found it is copied to the offset
      where the scan stopped, after growing the buffer by `strlen(name) + 1`
      bytes (`realloc` leaves the new bytes unspecified; they are NUL here). */
  function LabelIdAsWritten(buf: seq<char>, count: nat, name: string): (r: (nat, seq<char>, nat))
    requires |buf| == 0 || buf[|buf| - 1] == NUL
  {
    var scan := ScanAsWritten(buf, name, 0, 0);
    if scan.2 then (scan.0, buf, count)
    else
      var o := scan.1;
      var grown := buf + Zeros(|name| + 1);
      (scan.0, grown[..o] + name + [NUL] + grown[o + |name| + 1..], count + 1)
  }

  /** A buffer built by `Flatten` ends with NUL. */
  lemma {:induction false} FlattenEndsNul(names: seq<string>)
    ensures var buf := Flatten(names); |buf| == 0 || buf[|buf| - 1] == NUL
  {
  }

  /** One step of the as-written scan past a non-empty entry `w`. */
  lemma {:induction false} ScanStep(buf: seq<char>, name: string, i: nat, o: nat, w: string, i': nat, o': nat)
    requires (|buf| == 0 || buf[|buf| - 1] == NUL) && o + |w| < |buf| && CStr(buf, o) == w && w != []
    requires i' == i + 1 && o' == o + |w| + 1
    ensures ScanAsWritten(buf, name, i, o) == if w == name then (i, o, true) else ScanAsWritten(buf, name, i', o')
  {
    assert buf[o] != NUL;
  }

  /** The as-written scan stops at the end of the buffer. */
  lemma {:induction false} ScanEnd(buf: seq<char>, name: string, i: nat)
    requires |buf| == 0 || buf[|buf| - 1] == NUL
    ensures ScanAsWritten(buf, name, i, |buf|) == (i, |buf|, false)
  {
  }

  /** The buffer the scan walks: the interned names, none empty, each
      followed by its NUL. */
  predicate BufOf(names: seq<string>, buf: seq<char>) {
    && AllNulFree(names) && [] !in names && buf == Flatten(names)
    && (|buf| == 0 || buf[|buf| - 1] == NUL)
  }

  /** The scan stands at entry `i`, offset `o`, having passed no match. */
  predicate ScanAt(names: seq<string>, name: string, buf: seq<char>, i: nat, o: nat) {
    i <= |names| && o == Offset(names, i) && name !in names[..i] && o <= |buf|
  }

  /** `id` is the first position of `name` in `names`, or `|names|`. */
  predicate FirstAt(names: seq<string>, name: string, id: nat) {
    id <= |names| && (id < |names| ==> names[id] == name) && forall j :: 0 <= j < id ==> names[j] != name
  }

  /** The as-written scan finds the first match as long as no interned name
      is empty. */
  lemma {:induction false} ScanAsWrittenFlatten(names: seq<string>, name: string, buf: seq<char>, i: nat, o: nat)
      returns (id: nat)
    requires BufOf(names, buf) && ScanAt(names, name, buf, i, o)
    ensures FirstAt(names, name, id) && ScanAsWritten(buf, name, i, o) == (id, Offset(names, id), id < |names|)
    decreases |names| - i
  {
    if i == |names| {
      ScanPastLast(names, name, buf, i, o);
      id := i;
    } else if names[i] == name {
      ScanHit(names, name, buf, i, o);
      id := i;
    } else {
      var i', o' := i + 1, o + |names[i]| + 1;
      ScanSkip(names, name, buf, i, o, i', o');
      id := ScanAsWrittenFlatten(names, name, buf, i', o');
    }
  }

  /** The scan moves past an entry that differs from the name. */
  lemma {:induction false} ScanSkip(names: seq<string>, name: string, buf: seq<char>, i: nat, o: nat, i': nat, o': nat)
    requires BufOf(names, buf) && ScanAt(names, name, buf, i, o) && i < |names| && names[i] != name
    requires i' == i + 1 && o' == o + |names[i]| + 1
    ensures ScanAt(names, name, buf, i', o')
    ensures ScanAsWritten(buf, name, i, o) == ScanAsWritten(buf, name, i', o')
  {
    EntryAt(names, i);
    ScanStep(buf, name, i, o, names[i], i', o');
    assert names[..i'] == names[..i] + [names[i]];
  }

  /** The scan ends past the last entry without a match. */
  lemma {:induction false} ScanPastLast(names: seq<string>, name: string, buf: seq<char>, i: nat, o: nat)
    requires BufOf(names, buf) && ScanAt(names, name, buf, i, o) && i == |names|
    ensures FirstAt(names, name, i) && ScanAsWritten(buf, name, i, o) == (i, Offset(names, i), i < |names|)
  {
    OffsetEnd(names);
    ScanEnd(buf, name, i);
  }

  /** The scan stops at the first entry equal to the name. */
  lemma {:induction false} ScanHit(names: seq<string>, name: string, buf: seq<char>, i: nat, o: nat)
    requires BufOf(names, buf) && ScanAt(names, name, buf, i, o) && i < |names| && names[i] == name
    ensures FirstAt(names, name, i) && ScanAsWritten(buf, name, i, o) == (i, Offset(names, i), i < |names|)
  {
    EntryAt(names, i);
    ScanStep(buf, name, i, o, names[i], i + 1, o + |names[i]| + 1);
  }

  /** When the scan runs to the end of the buffer, `label_id` as written
      appends the name and its NUL. */
  lemma {:induction false} AppendsAtEnd(buf: seq<char>, count: nat, name: string)
    requires |buf| == 0 || buf[|buf| - 1] == NUL
    requires var scan := ScanAsWritten(buf, name, 0, 0); !scan.2 && scan.1 == |buf|
    ensures LabelIdAsWritten(buf, count, name) == (ScanAsWritten(buf, name, 0, 0).0, buf + name + [NUL], count + 1)
  {
    var o := ScanAsWritten(buf, name, 0, 0).1;
    var grown := buf + Zeros(|name| + 1);
    assert grown[..o] == buf;
    assert grown[o + |name| + 1..] == [];
    assert grown[..o] + name + [NUL] + grown[o + |name| + 1..] == buf + name + [NUL];
  }

  /** Where no name is empty, `label_id` as written agrees with `Intern`. */
  lemma {:induction false} LabelIdAsWrittenAgrees(names: seq<string>, name: string)
    requires AllNulFree(names) && NulFree(name)
    requires forall j :: 0 <= j < |names| ==> names[j] != []
    ensures var buf := Flatten(names);
            && (|buf| == 0 || buf[|buf| - 1] == NUL)
            && LabelIdAsWritten(buf, |names|, name)
               == (Intern(names, name).0, Flatten(Intern(names, name).1), |Intern(names, name).1|)
  {
    var buf := Flatten(names);
    FlattenEndsNul(names);
    assert names[..0] == [];
    var id := ScanAsWrittenFlatten(names, name, buf, 0, 0);
    IndexOfIs(names, name, id);
    if name !in names {
      OffsetEnd(names);
      AppendsAtEnd(buf, |names|, name);
      FlattenSnoc(names, name);
    }
  }

  /** An interned empty name hides every later entry from the as-written
      scan: interning "" and then "b" gives both id 0, so edges labelled ""
      and "b" would share one transition array. `Intern` keeps them apart. */
  lemma {:induction false} EmptyLabelCollides()
    ensures var (id1, b1, c1) := LabelIdAsWritten([], 0, "");
            && b1 == [NUL]
            && var (id2, b2, c2) := LabelIdAsWritten(b1, c1, "b");
            id1 == 0 && id2 == 0 && c2 == 2
    ensures Intern([], "").0 == 0 && Intern(Intern([], "").1, "b").0 == 1
  {
    var (id1, b1, c1) := LabelIdAsWritten([], 0, "");
    assert b1 == [NUL];
    assert ScanAsWritten(b1, "b", 0, 0) == (0, 0, false);
    assert "" != "b";
    assert Intern([], "").1 == [""];
  }
}
