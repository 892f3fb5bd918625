/** Repeated alerts of the storage autopilot: `event_once`, `clear_condition` and the trimmed event log. */
module Alerts {
  datatype Kind = GrowthUnavailable | GrowthFailed | CeilingReached | SystemDiskFull

  /** `REPEAT_SECONDS` */
  function RepeatSeconds(k: Kind): real {
    match k
    case GrowthUnavailable => 21600.0
    case GrowthFailed => 3600.0
    case CeilingReached => 21600.0
    case SystemDiskFull => 21600.0
  }

  type Notified = map<Kind, real>

  /** What happens to the notification times: a condition is found true at some time, or found gone. */
  datatype Op = Raise(kind: Kind, at: real) | Clear(kind: Kind)

  /** `notified.get(kind, 0)` */
  function LastTold(n: Notified, k: Kind): real {
    if k in n then n[k] else 0.0
  }

  /** Whether `event_once` goes on to report. */
  predicate Reports(n: Notified, op: Op) {
    op.Raise? && op.at - LastTold(n, op.kind) >= RepeatSeconds(op.kind)
  }

  function Apply(n: Notified, op: Op): Notified {
    match op
    case Raise(k, at) => if Reports(n, op) then n[k := at] else n
    case Clear(k) => n - {k}
  }

  function After(n: Notified, ops: seq<Op>): Notified {
    if ops == [] then n else Apply(After(n, ops[..|ops| - 1]), ops[|ops| - 1])
  }

  lemma {:induction false} AfterAppend(n: Notified, a: seq<Op>, b: seq<Op>)
    ensures After(n, a + b) == After(After(n, a), b)
  {
    if b == [] {
      assert a + b == a;
    } else {
      var m := |b| - 1;
      assert (a + b)[..|a + b| - 1] == a + b[..m];
      AfterAppend(n, a, b[..m]);
    }
  }

  /** Operation `j` of a run that began with nothing notified is reported. */
  predicate Reported(ops: seq<Op>, j: nat)
    requires j < |ops|
  {
    Reports(After(map[], ops[..j]), ops[j])
  }

  /** The run's clock starts after the epoch and never goes back. */
  ghost predicate InOrder(ops: seq<Op>) {
    && (forall i :: 0 <= i < |ops| && ops[i].Raise? ==> ops[i].at >= 0.0)
    && (forall i, j :: 0 <= i < j < |ops| && ops[i].Raise? && ops[j].Raise? ==> ops[i].at <= ops[j].at)
  }

  /** Nothing from `i` to before `j` clears `k`. */
  ghost predicate Holds(ops: seq<Op>, i: nat, j: nat, k: Kind)
    requires i <= j <= |ops|
  {
    forall c :: i <= c < j ==> ops[c] != Clear(k)
  }

  /** The report at `i` still stands at `j`: the condition has not been cleared since. */
  ghost predicate Stands(ops: seq<Op>, i: nat, j: nat, k: Kind)
    requires i < j <= |ops|
  {
    Reported(ops, i) && ops[i].kind == k && Holds(ops, i, j, k)
  }

  /** The notification time of a kind is the time of its latest standing report, if there is one. */
  lemma {:induction false} TimeIsLatestReport(ops: seq<Op>, j: nat, k: Kind) returns (last: int)
    requires j <= |ops| && InOrder(ops)
    ensures -1 <= last < j
    ensures last == -1 ==> k !in After(map[], ops[..j]) && forall i :: 0 <= i < j ==> !Stands(ops, i, j, k)
    ensures last != -1 ==>
              && Stands(ops, last, j, k)
              && k in After(map[], ops[..j]) && After(map[], ops[..j])[k] == ops[last].at
              && forall i :: 0 <= i < j && Stands(ops, i, j, k) ==> i <= last
    decreases j
  {
    if j == 0 {
      last := -1;
    } else {
      var n := j - 1;
      assert ops[..j][..n] == ops[..n] && ops[..j][n] == ops[n];
      last := TimeIsLatestReport(ops, n, k);
      if ops[n] == Clear(k) {
        last := -1;
      } else if Reported(ops, n) && ops[n].kind == k {
        last := n;
      } else {
        forall i | 0 <= i < j && Stands(ops, i, j, k) ensures i < n && Stands(ops, i, n, k) {
        }
      }
    }
  }

  /**
   Debouncing, told by history alone: a condition found true is reported exactly when its repeat window
   has passed since the epoch and since every report of it that was not cleared.
   */
  lemma ReportedExactly(ops: seq<Op>, j: nat)
    requires j < |ops| && InOrder(ops)
    ensures var window := if ops[j].kind == GrowthFailed then 3600.0 else 21600.0;
            Reported(ops, j) <==>
              && ops[j].Raise? && ops[j].at >= window
              && forall i :: 0 <= i < j && Stands(ops, i, j, ops[j].kind) ==> ops[j].at - ops[i].at >= window
  {
    if ops[j].Raise? {
      var last := TimeIsLatestReport(ops, j, ops[j].kind);
    }
  }

  /** Two reports of one kind with no clearing between them are at least the repeat window apart. */
  lemma ReportsAreApart(ops: seq<Op>, i: nat, j: nat)
    requires i < j < |ops| && InOrder(ops) && Reported(ops, i) && Reported(ops, j)
    requires ops[i].kind == ops[j].kind && Holds(ops, i, j, ops[i].kind)
    ensures ops[j].at - ops[i].at >= if ops[i].kind == GrowthFailed then 3600.0 else 21600.0
  {
    ReportedExactly(ops, j);
    assert Stands(ops, i, j, ops[j].kind);
  }

  /** After a clearing the first occurrence is reported at once, once the clock is past the window. */
  lemma FirstAfterClearIsReported(ops: seq<Op>, c: nat, j: nat)
    requires c < j < |ops| && InOrder(ops) && ops[j].Raise? && ops[c] == Clear(ops[j].kind)
    requires forall i :: c < i < j ==> !(ops[i].Raise? && ops[i].kind == ops[j].kind)
    ensures Reported(ops, j) <==> ops[j].at >= if ops[j].kind == GrowthFailed then 3600.0 else 21600.0
  {
    ReportedExactly(ops, j);
    forall i | 0 <= i < j ensures !Stands(ops, i, j, ops[j].kind) {
      if i <= c {
        assert ops[c] == Clear(ops[j].kind);
      }
    }
  }

  // ----- the event log -----

  const EVENTS_KEEP := 500

  /** `lines[-EVENTS_KEEP:]` after appending. */
  function Recorded<E>(log: seq<E>, e: E): seq<E> {
    var lines := log + [e];
    if |lines| <= EVENTS_KEEP then lines else lines[|lines| - EVENTS_KEEP..]
  }

  function RecordedAll<E>(log: seq<E>, es: seq<E>): seq<E> {
    if es == [] then log else Recorded(RecordedAll(log, es[..|es| - 1]), es[|es| - 1])
  }

  /** The last 500 of `es`. */
  function Latest<E>(es: seq<E>): seq<E> {
    if |es| <= 500 then es else es[|es| - 500..]
  }

  /** The file always holds the last 500 events of everything that ever happened. */
  lemma {:induction false} LogIsRecentHistory<E>(log: seq<E>, es: seq<E>)
    requires |log| <= EVENTS_KEEP
    ensures RecordedAll(log, es) == Latest(log + es)
  {
    if es == [] {
      assert log + es == log;
    } else {
      var n := |es| - 1;
      LogIsRecentHistory(log, es[..n]);
      RecordedLatest(log + es[..n], es[n]);
      assert log + es == log + es[..n] + [es[n]];
    }
  }

  lemma RecordedLatest<E>(all: seq<E>, e: E)
    ensures Recorded(Latest(all), e) == Latest(all + [e])
  {
    if |all| > EVENTS_KEEP {
      var k := |all| - EVENTS_KEEP;
      assert (all[k..] + [e])[1..] == (all + [e])[k + 1..];
    }
  }

  lemma {:induction false} RecordedAppend<E>(log: seq<E>, a: seq<E>, b: seq<E>)
    ensures RecordedAll(log, a + b) == RecordedAll(RecordedAll(log, a), b)
  {
    if b == [] {
      assert a + b == a;
    } else {
      assert (a + b)[..|a + b| - 1] == a + b[..|b| - 1];
      RecordedAppend(log, a, b[..|b| - 1]);
    }
  }
}
