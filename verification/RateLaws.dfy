/** What the measured write rate means: told by samples and minutes, not by how the windows are searched. */
module RateLaws {
  import opened Options
  import opened WriteRate

  /** The oldest sample between fifty seconds and `span` seconds ago is the one at `k`. */
  ghost predicate Oldest(h: seq<Sample>, k: nat, now: real, span: real) {
    && k < |h| && 50.0 <= now - h[k].at <= span
    && forall j :: 0 <= j < k ==> !(50.0 <= now - h[j].at <= span)
  }

  /** Since sample `k` usage has risen by at least `r` GiB for every minute that has passed. */
  predicate RisenBy(h: seq<Sample>, k: nat, now: real, used: real, r: real) {
    k < |h| && 60.0 * (used - h[k].used) >= r * (now - h[k].at)
  }

  /** It has so since the oldest sample of the window. */
  ghost predicate WindowRises(h: seq<Sample>, now: real, used: real, span: real, r: real) {
    exists k: nat :: Oldest(h, k, now, span) && RisenBy(h, k, now, used, r)
  }

  /** The windows of two, ten and thirty minutes, a minute of tolerance added. */
  const SPANS := [180.0, 660.0, 1860.0]

  lemma PerMinute(rise: real, run: real, r: real)
    requires run > 0.0
    ensures rise / run * 60.0 >= r <==> 60.0 * rise >= r * run
  {
    var q := rise / run;
    assert rise == q * run;
    Compare(q * 60.0, r, run);
    assert (q * 60.0) * run == 60.0 * (q * run);
  }

  lemma Compare(a: real, b: real, t: real)
    requires t > 0.0
    ensures a >= b <==> a * t >= b * t
  {
    if a >= b {
      assert (a - b) * t >= 0.0;
    } else {
      assert (b - a) * t > 0.0;
    }
  }

  lemma SlopeAtLeast(h: seq<Sample>, now: real, used: real, n: nat, r: real)
    requires n < |WINDOWS_SECONDS|
    ensures var slope := Slope(FirstIn(h, now, WINDOWS_SECONDS[n]), now, used);
            slope.Some? && slope.value >= r <==> WindowRises(h, now, used, SPANS[n], r)
  {
    var w := WINDOWS_SECONDS[n];
    assert WINDOWS_SECONDS == [120.0, 600.0, 1800.0];
    assert w + 60.0 == SPANS[n] && Min(w, 50.0) == 50.0;
    var k := FirstInIsFirst(h, now, w);
    if k < |h| {
      assert Oldest(h, k, now, SPANS[n]);
      PerMinute(used - h[k].used, now - h[k].at, r);
    }
    forall l: nat | Oldest(h, l, now, SPANS[n]) ensures l == k {
      assert InWindow(h[l], now, w);
    }
  }

  /** In one of the three windows usage has risen so. */
  ghost predicate SomeWindowRises(h: seq<Sample>, now: real, used: real, r: real) {
    exists n: nat :: n < |SPANS| && WindowRises(h, now, used, SPANS[n], r)
  }

  lemma OverOneMore(h: seq<Sample>, now: real, used: real, r: real, n: nat)
    requires n < |WINDOWS_SECONDS|
    ensures RateOver(h, now, used, n + 1) >= r <==>
            RateOver(h, now, used, n) >= r || WindowRises(h, now, used, SPANS[n], r)
  {
    SlopeAtLeast(h, now, used, n, r);
  }

  /**
   The rate is the greatest number of GiB by which usage rose in every minute since the oldest sample of some window:
   it is at least `r` if and only if `r` is not positive or some window's oldest sample says so.
   */
  lemma RateAtLeastExactly(h: seq<Sample>, now: real, used: real, r: real)
    ensures Rate(h, now, used) >= r <==> r <= 0.0 || SomeWindowRises(h, now, used, r)
  {
    OverOneMore(h, now, used, r, 0);
    OverOneMore(h, now, used, r, 1);
    OverOneMore(h, now, used, r, 2);
    assert RateOver(h, now, used, 0) == 0.0;
    assert SomeWindowRises(h, now, used, r) <==>
           || WindowRises(h, now, used, SPANS[0], r)
           || WindowRises(h, now, used, SPANS[1], r)
           || WindowRises(h, now, used, SPANS[2], r);
  }

  /** Usage has risen by exactly `r` GiB for every minute since each of the samples. */
  ghost predicate Steady(h: seq<Sample>, now: real, used: real, r: real) {
    forall s :: s in h ==> 60.0 * (used - s.used) == r * (now - s.at)
  }

  lemma {:induction false} OldestExists(h: seq<Sample>, now: real, span: real, m: nat) returns (k: nat)
    requires m < |h| && 50.0 <= now - h[m].at <= span
    ensures Oldest(h, k, now, span)
    decreases m
  {
    if j :| 0 <= j < m && 50.0 <= now - h[j].at <= span {
      k := OldestExists(h, now, span, j);
    } else {
      k := m;
    }
  }

  lemma SteadyWindow(h: seq<Sample>, now: real, used: real, r: real, span: real, q: real)
    requires Steady(h, now, used, r) && WindowRises(h, now, used, span, q)
    ensures q <= r
  {
    var k: nat :| Oldest(h, k, now, span) && RisenBy(h, k, now, used, q);
    assert h[k] in h;
    Compare(r, q, now - h[k].at);
  }

  /** A steady rise is measured exactly, once some sample is between fifty seconds and thirty-one minutes old. */
  lemma SteadyRiseIsMeasured(h: seq<Sample>, now: real, used: real, r: real, m: nat)
    requires r >= 0.0 && Steady(h, now, used, r) && m < |h| && 50.0 <= now - h[m].at <= 1860.0
    ensures Rate(h, now, used) == r
  {
    var k := OldestExists(h, now, SPANS[2], m);
    assert h[k] in h;
    assert WindowRises(h, now, used, SPANS[2], r);
    RateAtLeastExactly(h, now, used, r);
    var rate := Rate(h, now, used);
    RateAtLeastExactly(h, now, used, rate);
    if SomeWindowRises(h, now, used, rate) {
      var n: nat :| n < |SPANS| && WindowRises(h, now, used, SPANS[n], rate);
      SteadyWindow(h, now, used, r, SPANS[n], rate);
    }
  }
}
