/** The order and the counts of the import report, told by the fields of its tables. */
module ReportOrder {
  import opened Options
  import opened Reconciliation

  /** Somebody has to look at this table. */
  predicate Calls(t: Entry) { t.rowCountMismatch || t.keyMissing || t.note != "" }

  /** Nobody has counted its rows at the source. */
  predicate NotCounted(t: Entry) { t.sourceRows.None? }

  /** Its rows are an estimate of the source's planner. */
  predicate OnlyPlanned(t: Entry) { t.sourceRows.Some? && t.countMethod == RestPlanned }

  /** Its rows have been counted at the source. */
  predicate Counted(t: Entry) { t.sourceRows.Some? && t.countMethod != RestPlanned }

  /** Of two tables that both differ, or do not, the one that is not counted, then the one only planned, comes first. */
  predicate KindBefore(a: Entry, b: Entry) {
    || (a.rowCountMismatch && !b.rowCountMismatch)
    || (!a.rowCountMismatch && !b.rowCountMismatch
        && ((NotCounted(a) && !NotCounted(b)) || (OnlyPlanned(a) && Counted(b))))
  }

  /** `a` has to stand before `b`: it calls for attention and `b` does not, or else its kind, or else its name. */
  ghost predicate Before(compare: Collation, a: Entry, b: Entry) {
    || (Calls(a) && !Calls(b))
    || ((Calls(a) <==> Calls(b))
        && (KindBefore(a, b) || (!KindBefore(b, a) && compare(a.table, b.table) < 0)))
  }

  lemma BeforeExactly(compare: Collation, a: Entry, b: Entry)
    ensures ByAttention(compare)(a, b) < 0 <==> Before(compare, a, b)
  {
    assert (Calls(a) <==> NeedsAttention(a)) && (Calls(b) <==> NeedsAttention(b));
    var attention := (if Calls(b) then 1 else 0) - (if Calls(a) then 1 else 0);
    var rank := RankOf(KindOf(a)) - RankOf(KindOf(b));
    assert rank < 0 <==> KindBefore(a, b);
    assert rank > 0 <==> KindBefore(b, a);
    assert ByAttention(compare)(a, b)
        == if attention != 0 then attention else if rank != 0 then rank else compare(a.table, b.table);
  }

  /** In the sorted view no table stands behind one it has to stand before. */
  lemma ViewIsInOrder(compare: Collation, tables: seq<Entry>, sorted: seq<Entry>, i: nat, j: nat)
    requires Collates(compare) && SortOf(ByAttention(compare), tables, sorted) && i < j < |sorted|
    ensures !Before(compare, sorted[j], sorted[i])
  {
    ComparatorOrders(compare);
    BeforeExactly(compare, sorted[j], sorted[i]);
    var cmp := ByAttention(compare);
    assert cmp(sorted[i], sorted[j]) <= 0 <==> cmp(sorted[j], sorted[i]) >= 0;
  }

  /** Every table is counted, not counted, or only planned; of those counted, matching and differing are told apart. */
  lemma {:induction false} CountsSplit(tables: seq<Entry>)
    ensures |tables| == |Filter(tables, IsCounted)| + |Filter(tables, NotCounted)| + |Filter(tables, OnlyPlanned)|
    ensures |Filter(tables, IsCounted)|
            == |Filter(tables, IsMatching)| + |Filter(tables, t => Counted(t) && t.rowCountMismatch)|
  {
    if tables != [] {
      CountsSplit(tables[1..]);
    }
  }
}
