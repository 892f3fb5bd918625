/** When tables without a key come second in the reconciliation table, right behind the differing ones. */
module KeylessOrder {
  import opened Options
  import opened Reconciliation

  predicate Keyless(t: Entry) { !t.rowCountMismatch && t.keyMissing }
  predicate Keyed(t: Entry) { !t.rowCountMismatch && !t.keyMissing }
  predicate Noted(t: Entry) { Keyed(t) && t.note != "" }

  /** No table with a key stands between the differing tables and one without a key. */
  predicate KeylessSecond(sorted: seq<Entry>) {
    forall i, j :: 0 <= i < j < |sorted| && Keyless(sorted[j]) ==> !Keyed(sorted[i])
  }

  /** The table at `j` goes before the one at `i`: by the kind of its row, by its name, by its place in the list. */
  predicate GoesBefore(compare: Collation, tables: seq<Entry>, j: nat, i: nat)
    requires i < |tables| && j < |tables|
  {
    var rankJ, rankI := RankOf(KindOf(tables[j])), RankOf(KindOf(tables[i]));
    var name := compare(tables[j].table, tables[i].table);
    rankJ < rankI || (rankJ == rankI && (name < 0 || (name == 0 && j < i)))
  }

  ghost predicate Before(s: seq<Entry>, x: Entry, y: Entry) {
    exists i, j :: 0 <= i < j < |s| && s[i] == x && s[j] == y
  }

  lemma BeforeTail(s: seq<Entry>, x: Entry, y: Entry)
    requires s != []
    ensures Before(s, x, y) <==> Before(s[1..], x, y) || (s[0] == x && y in s[1..])
  {
    if Before(s[1..], x, y) {
      var i, j :| 0 <= i < j < |s[1..]| && s[1..][i] == x && s[1..][j] == y;
      assert s[i + 1] == x && s[j + 1] == y;
    }
    if s[0] == x && y in s[1..] {
      var j :| 0 <= j < |s[1..]| && s[1..][j] == y;
      assert s[0] == x && s[j + 1] == y;
    }
    if i, j :| 0 <= i < j < |s| && s[i] == x && s[j] == y {
      assert s[1..][j - 1] == y;
      if i > 0 {
        assert s[1..][i - 1] == x;
      }
    }
  }

  lemma {:induction false} FilterMembers(s: seq<Entry>, p: Entry -> bool, x: Entry)
    requires p(x)
    ensures x in Filter(s, p) <==> x in s
  {
    if s != [] {
      FilterMembers(s[1..], p, x);
      assert s == [s[0]] + s[1..];
    }
  }

  /** A filter keeps the order of what it keeps. */
  lemma {:induction false} FilterKeepsOrder(s: seq<Entry>, p: Entry -> bool, x: Entry, y: Entry)
    requires p(x) && p(y)
    ensures Before(Filter(s, p), x, y) <==> Before(s, x, y)
  {
    if s != [] {
      var rest := Filter(s[1..], p);
      FilterKeepsOrder(s[1..], p, x, y);
      FilterMembers(s[1..], p, y);
      BeforeTail(s, x, y);
      if p(s[0]) {
        assert Filter(s, p) == [s[0]] + rest && ([s[0]] + rest)[1..] == rest;
        BeforeTail(Filter(s, p), x, y);
      } else {
        assert Filter(s, p) == rest;
      }
    }
  }

  /** A stable sort leaves equals in the order they came in. */
  lemma StableKeepsOrder(cmp: Comparator, tables: seq<Entry>, sorted: seq<Entry>, x: Entry, y: Entry)
    requires Orders(cmp) && SortOf(cmp, tables, sorted) && cmp(y, x) == 0
    ensures Before(sorted, x, y) <==> Before(tables, x, y)
  {
    var p := SameAs(cmp, x);
    assert cmp(x, x) <= 0 <==> cmp(x, x) >= 0;
    FilterKeepsOrder(sorted, p, x, y);
    FilterKeepsOrder(tables, p, x, y);
    assert Filter(sorted, p) == Filter(tables, p);
  }

  lemma BothInSorted(cmp: Comparator, tables: seq<Entry>, sorted: seq<Entry>, i: nat, j: nat)
    requires SortOf(cmp, tables, sorted) && i < |tables| && j < |tables| && tables[i] != tables[j]
    requires cmp(tables[j], tables[i]) > 0
    ensures Before(sorted, tables[i], tables[j])
  {
    assert tables[i] in multiset(sorted) && tables[j] in multiset(sorted);
    var a, b :| 0 <= a < |sorted| && 0 <= b < |sorted| && sorted[a] == tables[i] && sorted[b] == tables[j];
    assert a <= b;
  }

  /** The exact condition, pair by pair: every keyless table goes before every table with a key and a note. */
  ghost predicate KeylessFirst(compare: Collation, tables: seq<Entry>) {
    forall i, j :: 0 <= i < |tables| && 0 <= j < |tables| && Noted(tables[i]) && Keyless(tables[j]) ==>
      GoesBefore(compare, tables, j, i)
  }

  /**
   The comment on the table is met exactly so: tables without a key come second in the sorted view if and only if
   each of them has a row kind or name, or else a place, that puts it before every noted table with a key.
   */
  lemma KeylessSecondExactly(compare: Collation, tables: seq<Entry>, sorted: seq<Entry>)
    requires Collates(compare) && SortOf(ByAttention(compare), tables, sorted)
    ensures KeylessSecond(sorted) <==> KeylessFirst(compare, tables)
  {
    ComparatorOrders(compare);
    if KeylessSecond(sorted) {
      forall i, j | 0 <= i < |tables| && 0 <= j < |tables| && Noted(tables[i]) && Keyless(tables[j])
        ensures GoesBefore(compare, tables, j, i)
      {
        SecondGoesBefore(compare, tables, sorted, i, j);
      }
    }
    if KeylessFirst(compare, tables) {
      forall i, j | 0 <= i < j < |sorted| && Keyless(sorted[j]) ensures !Keyed(sorted[i]) {
        if Keyed(sorted[i]) {
          var a, b := KeyedGoesBefore(compare, tables, sorted, i, j);
        }
      }
    }
  }

  lemma SecondGoesBefore(compare: Collation, tables: seq<Entry>, sorted: seq<Entry>, i: nat, j: nat)
    requires Orders(ByAttention(compare)) && SortOf(ByAttention(compare), tables, sorted) && KeylessSecond(sorted)
    requires i < |tables| && j < |tables| && Noted(tables[i]) && Keyless(tables[j])
    ensures GoesBefore(compare, tables, j, i)
  {
    var cmp := ByAttention(compare);
    var x, y := tables[i], tables[j];
    assert !Before(sorted, x, y);
    if cmp(y, x) > 0 {
      BothInSorted(cmp, tables, sorted, i, j);
    } else if cmp(y, x) == 0 && i <= j {
      assert Before(tables, x, y);
      StableKeepsOrder(cmp, tables, sorted, x, y);
    }
  }

  /** A keyless table behind one with a key comes of two tables that go that way round. */
  lemma KeyedGoesBefore(compare: Collation, tables: seq<Entry>, sorted: seq<Entry>, i: nat, j: nat)
    returns (a: nat, b: nat)
    requires Orders(ByAttention(compare)) && SortOf(ByAttention(compare), tables, sorted)
    requires i < j < |sorted| && Keyless(sorted[j]) && Keyed(sorted[i])
    ensures a < |tables| && b < |tables| && Noted(tables[a]) && Keyless(tables[b])
    ensures !GoesBefore(compare, tables, b, a)
  {
    var cmp := ByAttention(compare);
    var x, y := sorted[i], sorted[j];
    assert cmp(x, y) <= 0;
    WorseFirst(compare, x, y);
    if cmp(y, x) == 0 {
      StableKeepsOrder(cmp, tables, sorted, x, y);
      a, b :| 0 <= a < b < |tables| && tables[a] == x && tables[b] == y;
    } else {
      assert x in multiset(tables) && y in multiset(tables);
      a, b :| 0 <= a < |tables| && 0 <= b < |tables| && tables[a] == x && tables[b] == y;
    }
  }

  /** In every locale a matching table without a key comes behind an uncounted table with a key and a note. */
  lemma KeylessComesThird(compare: Collation) returns (tables: seq<Entry>)
    requires Collates(compare)
    ensures |tables| == 2 && Keyless(tables[0]) && Noted(tables[1])
    ensures forall sorted :: SortOf(ByAttention(compare), tables, sorted) ==> !KeylessSecond(sorted)
  {
    var matching := Entry("a", Some(1), false, OtherMethod, true, "");
    var uncounted := Entry("b", None, false, OtherMethod, false, "not counted");
    tables := [matching, uncounted];
    assert !GoesBefore(compare, tables, 0, 1);
    forall sorted | SortOf(ByAttention(compare), tables, sorted) ensures !KeylessSecond(sorted) {
      KeylessSecondExactly(compare, tables, sorted);
    }
  }
}
