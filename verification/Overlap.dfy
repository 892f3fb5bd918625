/** When a text comes back out of its own replacement: `t.split(s).join(r)` can hold `s` again. */
module Overlap {
  import opened Text

  /** `s`, laid over `r` with its first character at position `d`, agrees with it wherever the two meet. */
  predicate Agrees(s: string, r: string, d: int) {
    forall i :: 0 <= i < |s| && 0 <= d + i < |r| ==> s[i] == r[d + i]
  }

  /** In the first `m` characters of `s` followed by `s`, nothing is found before the second one. */
  predicate FoundLate(s: string, m: nat)
    requires m <= |s|
  {
    forall e :: 0 <= e < m ==> !OccursAt(s, s[..m] + s, e)
  }

  /** `s` can stand across `r` from position `d` and reaches past the first `kept` characters of `r`. */
  predicate OverlapsAt(s: string, r: string, kept: nat, d: int) {
    && -|s| < d < |r| && kept < d + |s|
    && Agrees(s, r, d)
    && (d < 0 ==> FoundLate(s, -d))
  }

  predicate Overlaps(s: string, r: string, kept: nat) {
    exists d :: -|s| < d < |r| && OverlapsAt(s, r, kept, d)
  }

  /** `r` begins with a proper prefix of `s`, of `kept` characters, and goes on. */
  predicate Begins(s: string, r: string, kept: nat) {
    kept < |s| && kept < |r| && r[..kept] == s[..kept]
  }

  lemma FoundAt(s: string, t: string, m: nat)
    requires m <= |t| && OccursAt(s, t, m) && forall e :: 0 <= e < m ==> !OccursAt(s, t, e)
    ensures IndexOf(s, t, 0) == m
  {
    IndexOfIsFirst(s, t, 0);
  }

  lemma OccursChars(s: string, t: string, k: int)
    requires OccursAt(s, t, k)
    ensures forall i {:trigger s[i]} :: 0 <= i < |s| ==> t[k + i] == s[i]
  {
    assert t[k..k + |s|] == s;
  }

  /** What precedes the first `s`, and a proper prefix of it, does not hold `s`. */
  lemma NotBefore(s: string, t: string, r: string, kept: nat, tail: string, q: int)
    requires Begins(s, r, kept) && IndexOf(s, t, 0) != -1 && q + |s| <= IndexOf(s, t, 0) + kept
    ensures !OccursAt(s, t[..IndexOf(s, t, 0)] + r + tail, q)
  {
    var k := IndexOf(s, t, 0);
    IndexOfIsFirst(s, t, 0);
    SliceOfSlice(t, k, k + |s|, 0, kept);
    assert t[..k] + s[..kept] == t[..k + kept];
    assert t == t[..k + kept] + t[k + kept..];
    OccursLeft(t[..k + kept], t[k + kept..], s, q);
    assert r == s[..kept] + r[kept..];
    assert t[..k] + r + tail == (t[..k] + s[..kept]) + (r[kept..] + tail);
    OccursLeft(t[..k + kept], r[kept..] + tail, s, q);
  }

  /** Where a text shows its secret again, the secret overlaps the replacement. */
  lemma {:induction false} ShownOverlaps(t: string, s: string, r: string, kept: nat, q: int)
    requires Begins(s, r, kept) && OccursAt(s, ReplaceAll(t, s, r), q)
    ensures Overlaps(s, r, kept)
    decreases |t|
  {
    var k := IndexOf(s, t, 0);
    if k == -1 {
      NotFound(s, t);
    } else {
      var rest := ReplaceAll(t[k + |s|..], s, r);
      if q >= k + |r| {
        OccursRight(t[..k] + r, rest, s, q - k - |r|);
        ShownOverlaps(t[k + |s|..], s, r, kept, q - k - |r|);
      } else if q + |s| <= k + kept {
        NotBefore(s, t, r, kept, rest, q);
      } else {
        AcrossIsOverlap(t, s, r, kept, q, rest);
      }
    }
  }

  lemma AcrossIsOverlap(t: string, s: string, r: string, kept: nat, q: int, tail: string)
    requires var k := IndexOf(s, t, 0);
             k != -1 && k + kept < q + |s| && q < k + |r| && OccursAt(s, t[..k] + r + tail, q)
    ensures OverlapsAt(s, r, kept, q - IndexOf(s, t, 0))
  {
    var k := IndexOf(s, t, 0);
    var out := t[..k] + r + tail;
    OccursChars(s, out, q);
    forall i | 0 <= i < |s| && 0 <= q - k + i < |r| ensures s[i] == r[q - k + i] {
      assert out[q + i] == s[i];
    }
    if q < k {
      var m := k - q;
      forall i | 0 <= i < m ensures t[q..k][i] == s[..m][i] {
        assert out[q + i] == s[i];
      }
      assert t[q..k] == s[..m];
      LateInText(s, t, m);
    }
  }

  /** What a text ends with before its first `s` is found no earlier with `s` behind it. */
  lemma LateInText(s: string, t: string, m: nat)
    requires var k := IndexOf(s, t, 0); k != -1 && m <= k && m <= |s| && t[k - m..k] == s[..m]
    ensures FoundLate(s, m)
  {
    var k := IndexOf(s, t, 0);
    IndexOfIsFirst(s, t, 0);
    Glue(t, k - m, k, k + |s|);
    forall e | 0 <= e < m ensures !OccursAt(s, s[..m] + s, e) {
      SliceOfSlice(t, k - m, k + |s|, e, e + |s|);
      assert !OccursAt(s, t, k - m + e);
    }
  }

  /** A text that shows its secret again. */
  lemma OverlapIsShown(s: string, r: string, kept: nat, d: int) returns (t: string)
    requires s != "" && OverlapsAt(s, r, kept, d)
    ensures Occurs(s, ReplaceAll(t, s, r))
  {
    var m := if d < 0 then -d else 0;
    var over := |r| - d;
    var tail := if over < |s| then s[over..] else "";
    t := s[..m] + s + tail;
    forall e | 0 <= e < m ensures !OccursAt(s, t, e) {
      OccursLeft(s[..m] + s, tail, s, e);
    }
    assert t[m..m + |s|] == s;
    FoundAt(s, t, m);
    assert t[..m] == s[..m] && t[m + |s|..] == tail;
    ShortIsKept(tail, s, r);
    LaidOver(s, r, d, m, tail);
  }

  lemma ShortIsKept(t: string, s: string, r: string)
    requires |t| < |s|
    ensures ReplaceAll(t, s, r) == t
  {
    assert IndexOf(s, t, 0) == -1;
  }

  lemma LaidOver(s: string, r: string, d: int, m: nat, tail: string)
    requires s != "" && -|s| < d < |r| && Agrees(s, r, d) && m == (if d < 0 then -d else 0)
    requires tail == if |r| - d < |s| then s[|r| - d..] else ""
    ensures Occurs(s, s[..m] + r + tail)
  {
    var out := s[..m] + r + tail;
    var p := d + m;
    forall i | 0 <= i < |s| ensures p + i < |out| && out[p + i] == s[i] {
      if d + i < 0 {
      } else if d + i < |r| {
        assert out[p + i] == r[d + i];
      } else {
        assert out[p + i] == tail[d + i - |r|];
      }
    }
    assert out[p..p + |s|] == s;
    assert OccursAt(s, out, p);
  }

  /** After the replacement `t` holds `s`. */
  ghost predicate StillHolds(t: string, s: string, r: string)
    requires s != ""
  {
    Occurs(s, ReplaceAll(t, s, r))
  }

  /**
   Exactly when replacing `s` by a text that begins with a prefix of `s` is safe: some text holds `s` after
   the replacement if and only if `s` overlaps the replacement beyond that prefix.
   */
  lemma ShowsExactly(s: string, r: string, kept: nat)
    requires Begins(s, r, kept)
    ensures (exists t :: StillHolds(t, s, r)) <==> Overlaps(s, r, kept)
  {
    if t :| StillHolds(t, s, r) {
      var q :| OccursAt(s, ReplaceAll(t, s, r), q);
      ShownOverlaps(t, s, r, kept, q);
    }
    if Overlaps(s, r, kept) {
      var d :| -|s| < d < |r| && OverlapsAt(s, r, kept, d);
      var t := OverlapIsShown(s, r, kept, d);
      assert StillHolds(t, s, r);
    }
  }

  lemma Covers(s: string, r: string, d: int, j: nat)
    requires j < |r| && 0 <= j - d < |s| && Agrees(s, r, d)
    ensures r[j] in s
  {
    assert s[j - d] == r[j];
  }

  /** A text without the outer characters of a replacement overlaps it exactly if it stands inside. */
  lemma BetweenExactly(s: string, open: char, mid: string, close: char)
    requires s != "" && open !in s && close !in s
    ensures Overlaps(s, [open] + mid + [close], 0) <==> Occurs(s, mid)
  {
    var r := [open] + mid + [close];
    if Overlaps(s, r, 0) {
      var d :| -|s| < d < |r| && OverlapsAt(s, r, 0, d);
      if d <= 0 {
        Covers(s, r, d, 0);
      }
      if d + |s| >= |r| {
        Covers(s, r, d, |r| - 1);
      }
      assert mid[d - 1..d - 1 + |s|] == s;
      assert OccursAt(s, mid, d - 1);
    }
    if k :| OccursAt(s, mid, k) {
      OccursChars(s, mid, k);
      assert OverlapsAt(s, r, 0, k + 1);
    }
  }

  lemma OccursTrans(a: string, b: string, c: string)
    requires Occurs(a, b) && Occurs(b, c)
    ensures Occurs(a, c)
  {
    var k :| OccursAt(b, c, k);
    assert c == c[..k] + b + c[k + |b|..];
    OccursInPart(a, c[..k], b, c[k + |b|..]);
  }

  /** What is replaced leaves its replacement behind. */
  lemma ReplacementStands(t: string, s: string, r: string)
    requires s != "" && Occurs(s, t)
    ensures Occurs(r, ReplaceAll(t, s, r))
  {
    var k := IndexOf(s, t, 0);
    if k == -1 {
      NotFound(s, t);
    } else {
      assert OccursAt(r, r, 0);
      OccursInPart(r, t[..k], r, ReplaceAll(t[k + |s|..], s, r));
    }
  }

  lemma NothingToReplace(t: string, s: string, r: string)
    requires s != "" && !Occurs(s, t)
    ensures ReplaceAll(t, s, r) == t
  {
    assert IndexOf(s, t, 0) == -1;
  }
}
