/** The write-rate estimate of the storage autopilot and the bounded sample buffer it is taken from. */
module WriteRate {
  import opened Options

  /** One measurement: when, in seconds, and how much was in use, in GiB. */
  datatype Sample = Sample(at: real, used: real)

  const SAMPLE_KEEP_SECONDS := 3600.0
  const SAMPLE_KEEP_COUNT := 120
  const WINDOWS_SECONDS := [120.0, 600.0, 1800.0]

  function Max(a: real, b: real): real { if a >= b then a else b }
  function Min(a: real, b: real): real { if a <= b then a else b }

  /** `[s for s in samples if now - s[0] <= SAMPLE_KEEP_SECONDS]` */
  function Recent(samples: seq<Sample>, now: real): seq<Sample> {
    if samples == [] then []
    else (if now - samples[0].at <= SAMPLE_KEEP_SECONDS then [samples[0]] else []) + Recent(samples[1..], now)
  }

  /** `samples[-n:]` */
  function LastOf<T>(s: seq<T>, n: nat): seq<T> {
    if |s| <= n then s else s[|s| - n..]
  }

  predicate InWindow(s: Sample, now: real, window: real) {
    now - s.at >= Min(window, 50.0) && now - s.at <= window + 60.0
  }

  /** The first sample of the window, if it has one. */
  function FirstIn(samples: seq<Sample>, now: real, window: real): Option<Sample> {
    if samples == [] then None
    else if InWindow(samples[0], now, window) then Some(samples[0])
    else FirstIn(samples[1..], now, window)
  }

  /** The rate, in GiB per minute, since the first sample of a window. */
  function Slope(first: Option<Sample>, now: real, used: real): Option<real> {
    if first.Some? && now - first.value.at > 0.0
    then Some((used - first.value.used) / (now - first.value.at) * 60.0)
    else None
  }

  /** The steepest of the first `n` windows, at least zero. */
  function RateOver(samples: seq<Sample>, now: real, used: real, n: nat): (rate: real)
    requires n <= |WINDOWS_SECONDS|
    ensures rate >= 0.0
  {
    if n == 0 then 0.0
    else
      var rate := RateOver(samples, now, used, n - 1);
      var slope := Slope(FirstIn(samples, now, WINDOWS_SECONDS[n - 1]), now, used);
      if slope.Some? then Max(rate, slope.value) else rate
  }

  function Rate(samples: seq<Sample>, now: real, used: real): real {
    RateOver(samples, now, used, |WINDOWS_SECONDS|)
  }

  /** The first sample of a window is in it, and none before it is. */
  lemma {:induction false} FirstInIsFirst(h: seq<Sample>, now: real, window: real) returns (k: nat)
    ensures k <= |h| && forall i :: 0 <= i < k ==> !InWindow(h[i], now, window)
    ensures FirstIn(h, now, window) == if k == |h| then None else Some(h[k])
    ensures k < |h| ==> InWindow(h[k], now, window)
  {
    if h == [] || InWindow(h[0], now, window) {
      k := 0;
    } else {
      k := FirstInIsFirst(h[1..], now, window);
      assert forall i :: 0 < i <= k && i < |h| ==> h[i] == h[1..][i - 1];
      k := k + 1;
    }
  }

  /** The rate is the steepest of the three windows, and zero when usage has only shrunk. */
  lemma RateIsSteepest(h: seq<Sample>, now: real, used: real)
    ensures forall w, v :: w in WINDOWS_SECONDS && Slope(FirstIn(h, now, w), now, used) == Some(v) ==>
              v <= Rate(h, now, used)
    ensures Rate(h, now, used) > 0.0 ==>
              exists w :: w in WINDOWS_SECONDS && Slope(FirstIn(h, now, w), now, used) == Some(Rate(h, now, used))
  {
    var w := WINDOWS_SECONDS;
    var r1, r2 := RateOver(h, now, used, 1), RateOver(h, now, used, 2);
    assert w[0] in w && w[1] in w && w[2] in w;
    assert RateOver(h, now, used, 0) == 0.0;
    assert r1 == 0.0 || Slope(FirstIn(h, now, w[0]), now, used) == Some(r1);
    assert r2 == r1 || Slope(FirstIn(h, now, w[1]), now, used) == Some(r2);
    assert Rate(h, now, used) == r2 || Slope(FirstIn(h, now, w[2]), now, used) == Some(Rate(h, now, used));
  }

  /** What a pass that measures `s` looks at, given what the pass before it kept. */
  function Seen(kept: seq<Sample>, s: Sample): seq<Sample> {
    Recent(kept, s.at) + [s]
  }

  /** What a pass keeps for the next one. */
  function Keep(kept: seq<Sample>, s: Sample): seq<Sample> {
    LastOf(Seen(kept, s), SAMPLE_KEEP_COUNT)
  }

  /** What is kept after a whole history of passes. */
  function KeptAfter(history: seq<Sample>): seq<Sample> {
    if history == [] then [] else Keep(KeptAfter(history[..|history| - 1]), history[|history| - 1])
  }

  /** Passes are at least `gap` seconds apart. */
  ghost predicate Spaced(h: seq<Sample>, gap: real) {
    forall i :: 0 <= i < |h| - 1 ==> h[i + 1].at - h[i].at >= gap
  }

  lemma {:induction false} SpacedApart(h: seq<Sample>, gap: real, i: nat, j: nat)
    requires Spaced(h, gap) && i <= j < |h|
    ensures h[j].at - h[i].at >= (j - i) as real * gap
    decreases j
  {
    if i < j {
      SpacedApart(h, gap, i, j - 1);
      assert h[j - 1 + 1].at - h[j - 1].at >= gap;
      assert (j - i) as real * gap == (j - 1 - i) as real * gap + gap;
    }
  }

  ghost predicate Ordered(h: seq<Sample>) {
    forall i, j :: 0 <= i <= j < |h| ==> h[i].at <= h[j].at
  }

  lemma SpacedIsOrdered(h: seq<Sample>, gap: real)
    requires Spaced(h, gap) && gap >= 0.0
    ensures Ordered(h)
  {
    assert Spaced(h, 0.0);
    forall i, j | 0 <= i <= j < |h| ensures h[i].at <= h[j].at {
      SpacedApart(h, 0.0, i, j);
    }
  }

  /** Of samples in order of time, the age limit keeps a suffix. */
  lemma {:induction false} RecentIsSuffix(h: seq<Sample>, now: real) returns (k: nat)
    requires Ordered(h)
    ensures k <= |h| && Recent(h, now) == h[k..]
    ensures forall i :: 0 <= i < k ==> now - h[i].at > SAMPLE_KEEP_SECONDS
  {
    if h == [] {
      k := 0;
    } else if now - h[0].at <= SAMPLE_KEEP_SECONDS {
      k := 0;
      RecentKeepsAll(h, now);
      assert h[0..] == h;
    } else {
      var tail := h[1..];
      assert Ordered(tail);
      var r := RecentIsSuffix(tail, now);
      k := r + 1;
      assert tail[r..] == h[k..];
      forall i | 0 <= i < k ensures now - h[i].at > SAMPLE_KEEP_SECONDS {
        if i > 0 {
          assert h[i] == tail[i - 1];
        }
      }
    }
  }

  lemma {:induction false} RecentKeepsAll(h: seq<Sample>, now: real)
    requires Ordered(h) && (h != [] ==> now - h[0].at <= SAMPLE_KEEP_SECONDS)
    ensures Recent(h, now) == h
  {
    if h != [] {
      RecentKeepsAll(h[1..], now);
      assert h == [h[0]] + h[1..];
    }
  }

  /** A sample leaves the buffer only by age or because 120 younger ones are there. */
  ghost predicate Outlived(h: seq<Sample>, i: nat)
    requires i < |h|
  {
    h[|h| - 1].at - h[i].at > 3600.0 || |h| - i > 120
  }

  lemma {:induction false} KeptIsSuffix(h: seq<Sample>) returns (k: nat)
    requires Ordered(h)
    ensures k <= |h| && KeptAfter(h) == h[k..] && |h| - k <= 120
    ensures forall i :: 0 <= i < k ==> Outlived(h, i)
    decreases |h|
  {
    if h == [] {
      k := 0;
    } else {
      var n := |h| - 1;
      var k0 := KeptIsSuffix(h[..n]);
      forall i | 0 <= i < k0 ensures Outlived(h, i) {
        assert Outlived(h[..n], i);
        assert h[n - 1].at <= h[n].at;
      }
      k := KeepStep(h, k0);
    }
  }

  lemma SeenStep(h: seq<Sample>, k0: nat, s: Sample) returns (k: nat)
    requires Ordered(h) && k0 <= |h|
    ensures k0 <= k <= |h| && Seen(h[k0..], s) == (h + [s])[k..]
    ensures forall i :: k0 <= i < k ==> s.at - h[i].at > SAMPLE_KEEP_SECONDS
  {
    var k1 := RecentIsSuffix(h[k0..], s.at);
    k := k0 + k1;
    assert h[k0..][k1..] == h[k..];
    assert h[k..] + [s] == (h + [s])[k..];
    forall i | k0 <= i < k ensures s.at - h[i].at > SAMPLE_KEEP_SECONDS {
      assert h[k0..][i - k0] == h[i];
    }
  }

  /** One pass turns a kept suffix into a kept suffix. */
  lemma KeepStep(h: seq<Sample>, k0: nat) returns (k: nat)
    requires h != [] && Ordered(h) && k0 < |h| && forall i :: 0 <= i < k0 ==> Outlived(h, i)
    ensures k <= |h| && |h| - k <= SAMPLE_KEEP_COUNT
    ensures Keep(h[..|h| - 1][k0..], h[|h| - 1]) == h[k..]
    ensures forall i :: 0 <= i < k ==> Outlived(h, i)
  {
    var n := |h| - 1;
    assert h[..n] + [h[n]] == h;
    var k1 := SeenStep(h[..n], k0, h[n]);
    k := if |h| - k1 <= SAMPLE_KEEP_COUNT then k1 else |h| - SAMPLE_KEEP_COUNT;
    assert LastOf(h[k1..], SAMPLE_KEEP_COUNT) == h[k..];
    forall i | k0 <= i < k ensures Outlived(h, i) {
      if i < k1 {
        assert h[..n][i] == h[i];
      }
    }
  }

  /** Samples outside the window do not matter for its first sample. */
  lemma {:induction false} FirstInSkips(h: seq<Sample>, k: nat, now: real, window: real)
    requires k <= |h| && forall i :: 0 <= i < k ==> !InWindow(h[i], now, window)
    ensures FirstIn(h, now, window) == FirstIn(h[k..], now, window)
  {
    if k > 0 {
      FirstInSkips(h[1..], k - 1, now, window);
      assert h[1..][k - 1..] == h[k..];
    } else {
      assert h[0..] == h;
    }
  }

  lemma SameFirstSameRate(a: seq<Sample>, b: seq<Sample>, now: real, used: real)
    requires forall w :: w in WINDOWS_SECONDS ==> FirstIn(a, now, w) == FirstIn(b, now, w)
    ensures Rate(a, now, used) == Rate(b, now, used)
  {
    var w := WINDOWS_SECONDS;
    assert w[0] in w && w[1] in w && w[2] in w;
    assert RateOver(a, now, used, 0) == RateOver(b, now, used, 0);
    assert RateOver(a, now, used, 1) == RateOver(b, now, used, 1);
    assert RateOver(a, now, used, 2) == RateOver(b, now, used, 2);
  }

  /** What a pass sees of its history: all but samples too old or too far back. */
  lemma SeenIsSuffix(h: seq<Sample>, s: Sample) returns (k: nat)
    requires Ordered(h + [s])
    ensures k <= |h| && Seen(KeptAfter(h), s) == (h + [s])[k..]
    ensures forall i :: 0 <= i < k ==> s.at - h[i].at > SAMPLE_KEEP_SECONDS || |h| - i > SAMPLE_KEEP_COUNT
    ensures |h| - k <= SAMPLE_KEEP_COUNT
  {
    var all := h + [s];
    assert h == all[..|h|];
    var k0 := KeptIsSuffix(h);
    k := SeenStep(h, k0, s);
    forall i | 0 <= i < k0
      ensures s.at - h[i].at > SAMPLE_KEEP_SECONDS || |h| - i > SAMPLE_KEEP_COUNT
    {
      assert Outlived(h, i);
      assert all[|h| - 1].at <= all[|h|].at;
    }
  }

  /** Spacing at which the longest window, 1800 + 60 s, cannot reach past the 121 samples a pass sees. */
  predicate WideEnough(gap: real) {
    121.0 * gap > 1860.0
  }

  /**
   The buffer refines unbounded history: a pass that sees only what was kept finds the rate it would find
   in everything ever measured.
   */
  lemma BufferRefinesHistory(h: seq<Sample>, s: Sample, gap: real)
    requires Spaced(h + [s], gap) && WideEnough(gap)
    ensures Rate(Seen(KeptAfter(h), s), s.at, s.used) == Rate(h + [s], s.at, s.used)
  {
    var all := h + [s];
    SpacedIsOrdered(all, gap);
    var k := SeenIsSuffix(h, s);
    forall i, w | 0 <= i < k && w in WINDOWS_SECONDS ensures !InWindow(all[i], s.at, w) {
      assert all[i] == h[i];
      if s.at - h[i].at <= SAMPLE_KEEP_SECONDS {
        SpacedApart(all, gap, i, |h|);
        Enough(|h| - i, gap);
      }
    }
    forall w | w in WINDOWS_SECONDS ensures FirstIn(all, s.at, w) == FirstIn(all[k..], s.at, w) {
      FirstInSkips(all, k, s.at, w);
    }
    SameFirstSameRate(all[k..], all, s.at, s.used);
  }

  lemma Enough(n: int, gap: real)
    requires n >= 121 && WideEnough(gap)
    ensures n as real * gap > 1860.0
  {
    assert n as real * gap == (n - 121) as real * gap + 121.0 * gap;
  }

  /** A steady level has no rate. */
  lemma {:induction false} LevelHasNoRate(h: seq<Sample>, now: real, used: real, n: nat)
    requires n <= |WINDOWS_SECONDS| && forall s :: s in h ==> s.used >= used
    ensures RateOver(h, now, used, n) == 0.0
    decreases n
  {
    if n > 0 {
      LevelHasNoRate(h, now, used, n - 1);
      var first := FirstIn(h, now, WINDOWS_SECONDS[n - 1]);
      FirstInIsMember(h, now, WINDOWS_SECONDS[n - 1]);
      if first.Some? && now - first.value.at > 0.0 {
        SlopeSign(used - first.value.used, now - first.value.at);
      }
    }
  }

  lemma SlopeSign(rise: real, run: real)
    requires rise <= 0.0 && run > 0.0
    ensures rise / run * 60.0 <= 0.0
  {
  }

  lemma {:induction false} FirstInIsMember(h: seq<Sample>, now: real, window: real)
    ensures FirstIn(h, now, window).Some? ==> FirstIn(h, now, window).value in h
  {
    if h != [] {
      FirstInIsMember(h[1..], now, window);
    }
  }

  /** A history of `n` passes `gap` apart in which only the very first found the volume empty. */
  ghost function Jump(n: nat, gap: real): seq<Sample> {
    seq(n, i => Sample(i as real * gap, if i == 0 then 0.0 else 1.0))
  }

  lemma JumpIsSpaced(n: nat, gap: real)
    requires gap > 0.0
    ensures Spaced(Jump(n, gap) + [Sample(n as real * gap, 1.0)], gap)
  {
    var all := Jump(n, gap) + [Sample(n as real * gap, 1.0)];
    forall i | 0 <= i < |all| - 1 ensures all[i + 1].at - all[i].at >= gap {
      assert (i + 1) as real * gap == i as real * gap + gap;
    }
  }

  /** How many passes to wait until the first sample is in the longest window but out of the buffer. */
  lemma JumpLength(gap: real) returns (n: nat)
    requires gap > 0.0 && !WideEnough(gap)
    ensures n >= 121 && 50.0 <= n as real * gap <= 1860.0
  {
    n := 121;
    while (n as real) * gap < 50.0
      invariant n >= 121 && (n as real) * gap <= 1860.0
      decreases ((50.0 - (n as real) * gap) / gap).Floor
    {
      assert ((n + 1) as real) * gap == (n as real) * gap + gap;
      assert (50.0 - ((n + 1) as real) * gap) / gap == (50.0 - (n as real) * gap) / gap - 1.0;
      n := n + 1;
    }
  }

  /** Passes any closer than that can be told apart from a full history. */
  lemma NarrowSpacingForgets(gap: real) returns (h: seq<Sample>, s: Sample)
    requires gap > 0.0 && !WideEnough(gap)
    ensures Spaced(h + [s], gap)
    ensures Rate(Seen(KeptAfter(h), s), s.at, s.used) != Rate(h + [s], s.at, s.used)
  {
    var n := JumpLength(gap);
    h, s := Jump(n, gap), Sample(n as real * gap, 1.0);
    JumpIsSpaced(n, gap);
    var all := h + [s];
    SpacedIsOrdered(all, gap);
    var k := SeenIsSuffix(h, s);
    assert forall x :: x in all[k..] ==> x.used == 1.0;
    LevelHasNoRate(all[k..], s.at, 1.0, 3);
    JumpHasRate(all, s.at);
  }

  lemma JumpHasRate(all: seq<Sample>, now: real)
    requires all != [] && all[0] == Sample(0.0, 0.0) && 50.0 <= now <= 1860.0
    ensures Rate(all, now, 1.0) > 0.0
  {
    assert WINDOWS_SECONDS[2] == 1800.0;
    assert InWindow(all[0], now, 1800.0);
    assert 1.0 / now * 60.0 > 0.0;
  }

  /** The exact spacing: the bounded buffer answers like full history for every run iff 121 gaps outlast 1860 s. */
  lemma SpacingIsExact(gap: real)
    requires gap > 0.0
    ensures WideEnough(gap) <==>
            (forall h: seq<Sample>, s: Sample :: Spaced(h + [s], gap) ==>
              Rate(Seen(KeptAfter(h), s), s.at, s.used) == Rate(h + [s], s.at, s.used))
  {
    if WideEnough(gap) {
      forall h: seq<Sample>, s: Sample | Spaced(h + [s], gap)
        ensures Rate(Seen(KeptAfter(h), s), s.at, s.used) == Rate(h + [s], s.at, s.used)
      {
        BufferRefinesHistory(h, s, gap);
      }
    } else {
      var h, s := NarrowSpacingForgets(gap);
    }
  }
}
