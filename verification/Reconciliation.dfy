/** The order, folding and counts of the reconciliation table, `import-reconciliation-table.tsx`. */
module Reconciliation {
  import opened Options
  import Text

  datatype Method = Rest | RestPlanned | OtherMethod

  /** One table of an import, as far as order and counts depend on it. */
  datatype Entry = Entry(table: string, sourceRows: Option<nat>, rowCountMismatch: bool, countMethod: Method,
                         keyMissing: bool, note: string)

  datatype RowKind = Mismatch | Uncounted | Estimated | Match

  function KindOf(t: Entry): RowKind {
    if t.rowCountMismatch then Mismatch
    else if t.sourceRows.None? then Uncounted
    else if t.countMethod == RestPlanned then Estimated
    else Match
  }

  predicate NeedsAttention(t: Entry) {
    t.rowCountMismatch || t.keyMissing || t.note != ""
  }

  function RankOf(k: RowKind): int {
    match k
    case Mismatch => 0
    case Uncounted => 1
    case Estimated => 2
    case Match => 3
  }

  /** `localeCompare` of some locale: negative, zero or positive. */
  type Collation = (string, string) -> int

  /** What any locale promises: names can be put in a line. */
  ghost predicate Collates(compare: Collation) {
    && (forall a, b :: compare(a, b) <= 0 <==> compare(b, a) >= 0)
    && (forall a, b, c {:trigger compare(a, b), compare(b, c)} ::
          compare(a, b) <= 0 && compare(b, c) <= 0 ==> compare(a, c) <= 0)
  }

  type Comparator = (Entry, Entry) -> int

  /** The comparator of the sort. */
  function ByAttention(compare: Collation): Comparator {
    (a: Entry, b: Entry) =>
      var attention := (if NeedsAttention(b) then 1 else 0) - (if NeedsAttention(a) then 1 else 0);
      if attention != 0 then attention
      else
        var k := RankOf(KindOf(a)) - RankOf(KindOf(b));
        if k != 0 then k else compare(a.table, b.table)
  }

  /** Any two entries are in order one way or the other, and order is transitive: a total preorder. */
  ghost predicate Orders(cmp: Comparator) {
    && (forall a, b {:trigger cmp(a, b)} :: cmp(a, b) <= 0 <==> cmp(b, a) >= 0)
    && (forall a, b, c {:trigger cmp(a, b), cmp(b, c)} :: cmp(a, b) <= 0 && cmp(b, c) <= 0 ==> cmp(a, c) <= 0)
  }

  /** The comparator is a total preorder, whatever the locale: sorting by it is well defined. */
  lemma ComparatorOrders(compare: Collation)
    requires Collates(compare)
    ensures Orders(ByAttention(compare))
  {
    var cmp := ByAttention(compare);
    forall a, b {:trigger cmp(a, b)} ensures cmp(a, b) <= 0 <==> cmp(b, a) >= 0 {
      assert compare(a.table, b.table) <= 0 <==> compare(b.table, a.table) >= 0;
    }
    forall a, b, c {:trigger cmp(a, b), cmp(b, c)} | cmp(a, b) <= 0 && cmp(b, c) <= 0 ensures cmp(a, c) <= 0 {
      assert compare(a.table, b.table) <= 0 && compare(b.table, c.table) <= 0 ==> compare(a.table, c.table) <= 0;
    }
  }

  ghost predicate Sorted(cmp: Comparator, s: seq<Entry>) {
    forall i, j :: 0 <= i < j < |s| ==> cmp(s[i], s[j]) <= 0
  }

  function Filter(s: seq<Entry>, p: Entry -> bool): (r: seq<Entry>)
    ensures |r| <= |s|
  {
    if s == [] then [] else (if p(s[0]) then [s[0]] else []) + Filter(s[1..], p)
  }

  function SameAs(cmp: Comparator, e: Entry): Entry -> bool {
    x => cmp(x, e) == 0
  }

  /** What a stable sort gives: a permutation in order, in which equals keep their places. */
  ghost predicate SortOf(cmp: Comparator, tables: seq<Entry>, sorted: seq<Entry>) {
    && multiset(sorted) == multiset(tables)
    && Sorted(cmp, sorted)
    && forall e: Entry :: Filter(sorted, SameAs(cmp, e)) == Filter(tables, SameAs(cmp, e))
  }

  lemma FilterCons(x: Entry, s: seq<Entry>, p: Entry -> bool)
    ensures Filter([x] + s, p) == (if p(x) then [x] else []) + Filter(s, p)
  {
    assert ([x] + s)[1..] == s;
  }

  lemma {:induction false} FilterAppend(a: seq<Entry>, b: seq<Entry>, p: Entry -> bool)
    ensures Filter(a + b, p) == Filter(a, p) + Filter(b, p)
  {
    if a == [] {
      assert a + b == b;
    } else {
      var h := if p(a[0]) then [a[0]] else [];
      FilterAppend(a[1..], b, p);
      Text.Regroup([a[0]], a[1..], b);
      assert a == [a[0]] + a[1..];
      FilterCons(a[0], a[1..] + b, p);
      Text.Regroup(h, Filter(a[1..], p), Filter(b, p));
    }
  }

  // ----- the sort exists and is settled by the tables -----

  /** A place for `e` before the first entry it may precede. */
  function Insert(cmp: Comparator, e: Entry, s: seq<Entry>): seq<Entry> {
    if s == [] || cmp(e, s[0]) <= 0 then [e] + s else [s[0]] + Insert(cmp, e, s[1..])
  }

  function Arranged(cmp: Comparator, tables: seq<Entry>): seq<Entry> {
    if tables == [] then [] else Insert(cmp, tables[0], Arranged(cmp, tables[1..]))
  }

  lemma {:induction false} InsertPermutes(cmp: Comparator, e: Entry, s: seq<Entry>)
    ensures multiset(Insert(cmp, e, s)) == multiset([e] + s)
  {
    if s != [] && cmp(e, s[0]) > 0 {
      InsertPermutes(cmp, e, s[1..]);
      assert s == [s[0]] + s[1..];
    }
  }

  lemma {:induction false} InsertSorts(cmp: Comparator, e: Entry, s: seq<Entry>)
    requires Orders(cmp) && Sorted(cmp, s)
    ensures Sorted(cmp, Insert(cmp, e, s))
  {
    if s == [] {
    } else if cmp(e, s[0]) <= 0 {
      forall j | 0 <= j < |s| ensures cmp(e, s[j]) <= 0 {
        assert j > 0 ==> cmp(s[0], s[j]) <= 0;
      }
      PrependSorts(cmp, e, s);
    } else {
      var x, tail := s[0], s[1..];
      InsertSorts(cmp, e, tail);
      forall j | 0 <= j < |Insert(cmp, e, tail)| ensures cmp(x, Insert(cmp, e, tail)[j]) <= 0 {
        InsertMembers(cmp, e, tail, j);
        assert cmp(x, e) <= 0;
      }
      PrependSorts(cmp, x, Insert(cmp, e, tail));
    }
  }

  lemma PrependSorts(cmp: Comparator, x: Entry, s: seq<Entry>)
    requires Sorted(cmp, s) && forall j :: 0 <= j < |s| ==> cmp(x, s[j]) <= 0
    ensures Sorted(cmp, [x] + s)
  {
  }

  lemma InsertMembers(cmp: Comparator, e: Entry, s: seq<Entry>, j: nat)
    requires j < |Insert(cmp, e, s)|
    ensures Insert(cmp, e, s)[j] == e || Insert(cmp, e, s)[j] in s
  {
    InsertPermutes(cmp, e, s);
    assert Insert(cmp, e, s)[j] in multiset([e] + s);
  }

  lemma {:induction false} InsertIsStable(cmp: Comparator, e: Entry, s: seq<Entry>, f: Entry)
    requires Orders(cmp)
    ensures Filter(Insert(cmp, e, s), SameAs(cmp, f)) == Filter([e] + s, SameAs(cmp, f))
  {
    if s != [] && cmp(e, s[0]) > 0 {
      var p, x, tail := SameAs(cmp, f), s[0], s[1..];
      InsertIsStable(cmp, e, tail, f);
      FilterCons(x, Insert(cmp, e, tail), p);
      FilterCons(e, tail, p);
      FilterCons(x, tail, p);
      assert s == [x] + tail;
      FilterCons(e, s, p);
      NotBothSame(cmp, e, x, f);
      SwapOne(if p(x) then [x] else [], if p(e) then [e] else [], Filter(tail, p));
    }
  }

  lemma SwapOne(a: seq<Entry>, b: seq<Entry>, c: seq<Entry>)
    requires a == [] || b == []
    ensures a + (b + c) == b + (a + c)
  {
  }

  /** Entries of different rank are not both equal to a third. */
  lemma NotBothSame(cmp: Comparator, e: Entry, x: Entry, f: Entry)
    requires Orders(cmp) && cmp(e, x) > 0
    ensures !(cmp(e, f) == 0 && cmp(x, f) == 0)
  {
    assert cmp(x, f) == 0 ==> cmp(f, x) <= 0;
  }

  /** A stable sort by the comparator exists for every list of tables. */
  lemma {:induction false} ArrangedIsSort(cmp: Comparator, tables: seq<Entry>)
    requires Orders(cmp)
    ensures SortOf(cmp, tables, Arranged(cmp, tables))
  {
    if tables != [] {
      var e, rest := tables[0], Arranged(cmp, tables[1..]);
      ArrangedIsSort(cmp, tables[1..]);
      assert tables == [e] + tables[1..];
      forall f: Entry ensures Filter(Arranged(cmp, tables), SameAs(cmp, f)) == Filter(tables, SameAs(cmp, f)) {
        InsertIsStable(cmp, e, rest, f);
        FilterCons(e, rest, SameAs(cmp, f));
        FilterCons(e, tables[1..], SameAs(cmp, f));
      }
      InsertSorts(cmp, e, rest);
      InsertPermutes(cmp, e, rest);
    }
  }

  /** Two sorts of the same tables begin alike and go on as sorts of the same rest. */
  lemma SortsGoOn(cmp: Comparator, a: seq<Entry>, b: seq<Entry>)
    requires Orders(cmp) && SortOf(cmp, a, b) && Sorted(cmp, a) && a != [] && b != []
    ensures a[0] == b[0] && SortOf(cmp, a[1..], b[1..]) && Sorted(cmp, a[1..])
  {
    SameFirst(cmp, a, b);
    assert a == [a[0]] + a[1..] && b == [a[0]] + b[1..];
    TailSort(cmp, a[0], a[1..], b[1..]);
    TailSorted(cmp, a[0], a[1..]);
  }

  /** A list in order is its own only stable sort. */
  lemma {:induction false} SortIsUnique(cmp: Comparator, a: seq<Entry>, b: seq<Entry>)
    requires Orders(cmp) && SortOf(cmp, a, b) && Sorted(cmp, a)
    ensures a == b
    decreases |a|
  {
    assert |multiset(a)| == |multiset(b)|;
    if a != [] {
      SortsGoOn(cmp, a, b);
      SortIsUnique(cmp, a[1..], b[1..]);
      Text.SameHeadAndTail(a, b);
    }
  }

  /** The view is settled by the tables and the locale: there is exactly one stable sort. */
  lemma SortExactly(cmp: Comparator, tables: seq<Entry>, sorted: seq<Entry>)
    requires Orders(cmp)
    ensures SortOf(cmp, tables, sorted) <==> sorted == Arranged(cmp, tables)
  {
    ArrangedIsSort(cmp, tables);
    if SortOf(cmp, tables, sorted) {
      SortIsUnique(cmp, Arranged(cmp, tables), sorted);
    }
  }

  lemma TailSort(cmp: Comparator, x: Entry, a: seq<Entry>, b: seq<Entry>)
    requires SortOf(cmp, [x] + a, [x] + b)
    ensures SortOf(cmp, a, b)
  {
    TailPermutes(x, a, b);
    TailSorted(cmp, x, b);
    forall f: Entry ensures Filter(b, SameAs(cmp, f)) == Filter(a, SameAs(cmp, f)) {
      FilterTail(x, b, a, SameAs(cmp, f));
    }
  }

  lemma TailPermutes(x: Entry, a: seq<Entry>, b: seq<Entry>)
    requires multiset([x] + a) == multiset([x] + b)
    ensures multiset(a) == multiset(b)
  {
    assert multiset(a) == multiset([x] + a) - multiset{x};
    assert multiset(b) == multiset([x] + b) - multiset{x};
  }

  lemma TailSorted(cmp: Comparator, x: Entry, s: seq<Entry>)
    requires Sorted(cmp, [x] + s)
    ensures Sorted(cmp, s)
  {
    assert forall i :: 0 <= i < |s| ==> ([x] + s)[i + 1] == s[i];
    forall i, j | 0 <= i < j < |s| ensures cmp(s[i], s[j]) <= 0 {
      assert cmp(([x] + s)[i + 1], ([x] + s)[j + 1]) <= 0;
    }
  }

  lemma FilterTail(x: Entry, a: seq<Entry>, b: seq<Entry>, p: Entry -> bool)
    requires Filter([x] + a, p) == Filter([x] + b, p)
    ensures Filter(a, p) == Filter(b, p)
  {
    FilterCons(x, a, p);
    FilterCons(x, b, p);
    var h := if p(x) then [x] else [];
    assert (h + Filter(a, p))[|h|..] == Filter(a, p) && (h + Filter(b, p))[|h|..] == Filter(b, p);
  }

  lemma SameFirst(cmp: Comparator, a: seq<Entry>, b: seq<Entry>)
    requires Orders(cmp) && SortOf(cmp, a, b) && Sorted(cmp, a) && a != [] && b != []
    ensures a[0] == b[0]
  {
    var p := SameAs(cmp, a[0]);
    FirstIsLeast(cmp, a, b[0]);
    FirstIsLeast(cmp, b, a[0]);
    assert cmp(b[0], a[0]) == 0 && cmp(a[0], a[0]) == 0;
    assert p(a[0]) && p(b[0]);
    assert Filter(a, p)[0] == a[0] && Filter(b, p)[0] == b[0];
  }

  lemma FirstIsLeast(cmp: Comparator, s: seq<Entry>, e: Entry)
    requires Orders(cmp) && Sorted(cmp, s) && s != [] && e in multiset(s)
    ensures cmp(s[0], e) <= 0 && cmp(e, s[0]) >= 0 && cmp(s[0], s[0]) == 0
  {
    var i :| 0 <= i < |s| && s[i] == e;
    assert cmp(s[0], s[0]) <= 0 <==> cmp(s[0], s[0]) >= 0;
    assert i > 0 ==> cmp(s[0], s[i]) <= 0;
  }

  // ----- what the view shows -----

  /** A property that never follows its absence holds of a prefix, which is all a filter keeps. */
  lemma {:induction false} FilterIsPrefix(s: seq<Entry>, p: Entry -> bool) returns (n: nat)
    requires forall i, j :: 0 <= i < j < |s| && p(s[j]) ==> p(s[i])
    ensures n <= |s| && Filter(s, p) == s[..n]
    ensures forall i :: 0 <= i < |s| ==> (p(s[i]) <==> i < n)
  {
    if s == [] {
      n := 0;
    } else if p(s[0]) {
      n := FilterIsPrefix(s[1..], p);
      n := n + 1;
      assert s[..n] == [s[0]] + s[1..][..n - 1];
      assert forall i :: 0 < i < |s| ==> s[i] == s[1..][i - 1];
    } else {
      n := 0;
      FilterOfNone(s, p);
    }
  }

  lemma {:induction false} FilterOfNone(s: seq<Entry>, p: Entry -> bool)
    requires forall i :: 0 <= i < |s| ==> !p(s[i])
    ensures Filter(s, p) == []
  {
    if s != [] {
      FilterOfNone(s[1..], p);
    }
  }

  lemma WithoutOne(x: Entry, a: seq<Entry>, front: seq<Entry>, back: seq<Entry>)
    requires multiset([x] + a) == multiset(front + ([x] + back))
    ensures multiset(a) == multiset(front + back)
  {
    assert multiset([x] + a) == multiset{x} + multiset(a);
    assert multiset(front + ([x] + back)) == multiset(front) + (multiset{x} + multiset(back));
    assert multiset(front + back) == multiset(front) + multiset(back);
    assert multiset(a) == multiset([x] + a) - multiset{x};
  }

  lemma FindIn(x: Entry, b: seq<Entry>) returns (front: seq<Entry>, back: seq<Entry>)
    requires x in b
    ensures b == front + ([x] + back)
  {
    var k :| 0 <= k < |b| && b[k] == x;
    front, back := b[..k], b[k + 1..];
  }

  /** The first entry of `a` stands somewhere in its permutation `b`; without it the rests are permutations. */
  lemma FindFirst(a: seq<Entry>, b: seq<Entry>) returns (front: seq<Entry>, back: seq<Entry>)
    requires a != [] && multiset(a) == multiset(b)
    ensures b == front + ([a[0]] + back) && multiset(a[1..]) == multiset(front + back)
  {
    assert a[0] in multiset(b);
    front, back := FindIn(a[0], b);
    assert a == [a[0]] + a[1..];
    WithoutOne(a[0], a[1..], front, back);
  }

  /** A filter keeps as many of a permutation. */
  lemma {:induction false} FilterOfPermutation(a: seq<Entry>, b: seq<Entry>, p: Entry -> bool)
    requires multiset(a) == multiset(b)
    ensures |a| == |b| && |Filter(a, p)| == |Filter(b, p)|
    decreases |a|
  {
    assert |multiset(a)| == |a| && |multiset(b)| == |b|;
    if a != [] {
      var front, back := FindFirst(a, b);
      FilterOfPermutation(a[1..], front + back, p);
      assert a == [a[0]] + a[1..];
      FilterCons(a[0], a[1..], p);
      FilterCons(a[0], back, p);
      FilterAppend(front, [a[0]] + back, p);
      FilterAppend(front, back, p);
    }
  }

  predicate IsMismatch(t: Entry) { t.rowCountMismatch }

  /** Nothing that needs less attention stands before something that needs more. */
  lemma WorseFirst(compare: Collation, a: Entry, b: Entry)
    requires ByAttention(compare)(a, b) <= 0
    ensures (NeedsAttention(b) ==> NeedsAttention(a)) && (IsMismatch(b) ==> IsMismatch(a))
  {
    if IsMismatch(b) {
      assert RankOf(KindOf(b)) == 0 && RankOf(KindOf(a)) >= 0;
    }
  }

  /**
   However a locale orders names: the tables whose counts differ come first, the tables that need attention
   form a longer beginning of the sorted view, and the folded view is exactly that beginning, so that
   `hidden` counts exactly what follows it.
   */
  lemma FoldedViewIsPrefix(compare: Collation, tables: seq<Entry>, sorted: seq<Entry>)
    returns (differing: nat, shown: nat)
    requires SortOf(ByAttention(compare), tables, sorted)
    ensures differing <= shown <= |sorted| == |tables|
    ensures forall i :: 0 <= i < |sorted| ==> (IsMismatch(sorted[i]) <==> i < differing)
    ensures forall i :: 0 <= i < |sorted| ==> (NeedsAttention(sorted[i]) <==> i < shown)
    ensures Filter(sorted, NeedsAttention) == sorted[..shown]
    ensures |sorted| - |Filter(sorted, NeedsAttention)| == |sorted[shown..]|
    ensures differing == |Filter(tables, IsMismatch)| && shown == |Filter(tables, NeedsAttention)|
  {
    var cmp := ByAttention(compare);
    forall i, j | 0 <= i < j < |sorted|
      ensures (NeedsAttention(sorted[j]) ==> NeedsAttention(sorted[i]))
              && (IsMismatch(sorted[j]) ==> IsMismatch(sorted[i]))
    {
      assert cmp(sorted[i], sorted[j]) <= 0;
      WorseFirst(compare, sorted[i], sorted[j]);
    }
    shown := FilterIsPrefix(sorted, NeedsAttention);
    differing := FilterIsPrefix(sorted, IsMismatch);
    assert differing > 0 ==> IsMismatch(sorted[differing - 1]) && NeedsAttention(sorted[differing - 1]);
    FilterOfPermutation(sorted, tables, NeedsAttention);
    FilterOfPermutation(sorted, tables, IsMismatch);
  }

  // ----- the counts -----

  predicate IsCounted(t: Entry) { t.sourceRows.Some? && t.countMethod != RestPlanned }
  predicate IsMatching(t: Entry) { IsCounted(t) && !t.rowCountMismatch }
  predicate IsCountedMismatch(t: Entry) { IsCounted(t) && t.rowCountMismatch }

  /** `counted` is `matching` and the differing tables among those counted. */
  lemma {:induction false} CountsAddUp(tables: seq<Entry>)
    ensures |Filter(tables, IsCounted)| == |Filter(tables, IsMatching)| + |Filter(tables, IsCountedMismatch)|
    ensures |Filter(tables, IsMatching)| + |Filter(tables, IsMismatch)| <= |tables|
  {
    if tables != [] {
      CountsAddUp(tables[1..]);
    }
  }
}
