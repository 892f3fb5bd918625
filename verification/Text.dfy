/** Substring search, `split` and `join` on strings, as JavaScript defines them. */
module Text {

  /** The class `\s` of regular expressions, which is also what `trim` removes. */
  predicate IsSpace(c: char) {
    '\t' <= c <= '\r' || c == ' ' || c == '\U{00A0}' || c == '\U{1680}' || '\U{2000}' <= c <= '\U{200A}'
    || c == '\U{2028}' || c == '\U{2029}' || c == '\U{202F}' || c == '\U{205F}' || c == '\U{3000}' || c == '\U{FEFF}'
  }

  function TrimStart(s: string): string {
    if s != "" && IsSpace(s[0]) then TrimStart(s[1..]) else s
  }

  function TrimEnd(s: string): string {
    if s != "" && IsSpace(s[|s| - 1]) then TrimEnd(s[..|s| - 1]) else s
  }

  /** `s.trim()` */
  function Trim(s: string): string {
    TrimEnd(TrimStart(s))
  }

  lemma {:induction false} TrimStartFacts(s: string)
    ensures var r := TrimStart(s);
            && |r| <= |s| && r == s[|s| - |r|..] && (r != "" ==> !IsSpace(r[0]))
            && (s != "" && !IsSpace(s[0]) ==> r == s)
  {
    if s != "" && IsSpace(s[0]) {
      TrimStartFacts(s[1..]);
    }
  }

  lemma {:induction false} TrimEndFacts(s: string)
    ensures var r := TrimEnd(s);
            && r <= s && (r != "" ==> !IsSpace(r[|r| - 1])) && (s != "" && !IsSpace(s[|s| - 1]) ==> r == s)
  {
    if s != "" && IsSpace(s[|s| - 1]) {
      TrimEndFacts(s[..|s| - 1]);
    }
  }

  /** `s.toLowerCase()` on ASCII letters. */
  function Lower(s: string): (r: string)
    ensures |r| == |s|
  {
    seq(|s|, i requires 0 <= i < |s| => if 'A' <= s[i] <= 'Z' then s[i] - 'A' + 'a' else s[i])
  }

  /** `s` stands in `t` at position `k`. */
  predicate OccursAt(s: string, t: string, k: int) {
    0 <= k && k + |s| <= |t| && t[k..k + |s|] == s
  }

  ghost predicate Occurs(s: string, t: string) {
    exists k :: OccursAt(s, t, k)
  }

  lemma Regroup<T>(a: seq<T>, b: seq<T>, c: seq<T>)
    ensures a + (b + c) == a + b + c
  {
  }

  lemma Glue(t: string, a: nat, b: nat, c: nat)
    requires a <= b <= c <= |t|
    ensures t[a..b] + t[b..c] == t[a..c]
  {
  }

  lemma SliceOfSlice(t: string, lo: nat, hi: nat, a: nat, b: nat)
    requires lo + a <= lo + b <= hi <= |t|
    ensures t[lo..hi][a..b] == t[lo + a..lo + b]
  {
    var u, v := t[lo..hi][a..b], t[lo + a..lo + b];
    forall i | 0 <= i < |u| ensures u[i] == v[i] {
      assert t[lo..hi][a + i] == t[lo + a + i];
    }
    assert u == v;
  }

  lemma SameHeadAndTail<T>(a: seq<T>, b: seq<T>)
    requires a != [] && b != [] && a[0] == b[0] && a[1..] == b[1..]
    ensures a == b
  {
    assert a == [a[0]] + a[1..] && b == [b[0]] + b[1..];
  }

  lemma CutAt(t: string, k: nat, n: nat)
    requires k <= n <= |t|
    ensures t == t[..k] + t[k..n] + t[n..]
  {
  }

  /** `t.indexOf(s, from)`: the first position at or after `from`, or -1. */
  function IndexOf(s: string, t: string, from: nat): (k: int)
    requires from <= |t|
    ensures k == -1 || from <= k
    ensures k != -1 ==> OccursAt(s, t, k)
    decreases |t| - from
  {
    if OccursAt(s, t, from) then from
    else if from == |t| then -1
    else IndexOf(s, t, from + 1)
  }

  lemma {:induction false} IndexOfIsFirst(s: string, t: string, from: nat)
    requires from <= |t|
    ensures var k := IndexOf(s, t, from);
            forall j {:trigger OccursAt(s, t, j)} :: from <= j && (k == -1 || j < k) ==> !OccursAt(s, t, j)
    decreases |t| - from
  {
    if !OccursAt(s, t, from) && from < |t| {
      IndexOfIsFirst(s, t, from + 1);
    }
  }

  lemma NotFound(s: string, t: string)
    requires IndexOf(s, t, 0) == -1
    ensures !Occurs(s, t)
  {
    IndexOfIsFirst(s, t, 0);
  }

  /** `t.split(s)` for a non-empty separator. */
  function Split(t: string, s: string): (pieces: seq<string>)
    requires s != ""
    ensures pieces != []
    decreases |t|
  {
    var k := IndexOf(s, t, 0);
    if k == -1 then [t] else [t[..k]] + Split(t[k + |s|..], s)
  }

  /** `pieces.join(r)`. */
  function Join(pieces: seq<string>, r: string): string {
    if |pieces| == 0 then ""
    else if |pieces| == 1 then pieces[0]
    else pieces[0] + r + Join(pieces[1..], r)
  }

  /** `t.replace(/s/g, r)` for a literal, non-empty `s`: every occurrence, from the left. */
  function ReplaceAll(t: string, s: string, r: string): string
    requires s != ""
    decreases |t|
  {
    var k := IndexOf(s, t, 0);
    if k == -1 then t else t[..k] + r + ReplaceAll(t[k + |s|..], s, r)
  }

  lemma JoinCons(p: string, rest: seq<string>, r: string)
    requires rest != []
    ensures Join([p] + rest, r) == p + r + Join(rest, r)
  {
    assert ([p] + rest)[1..] == rest;
  }

  /** `t.split(s).join(r)` replaces every occurrence. */
  lemma {:induction false} SplitJoinReplaces(t: string, s: string, r: string)
    requires s != ""
    ensures Join(Split(t, s), r) == ReplaceAll(t, s, r)
    decreases |t|
  {
    var k := IndexOf(s, t, 0);
    if k != -1 {
      SplitJoinReplaces(t[k + |s|..], s, r);
      JoinCons(t[..k], Split(t[k + |s|..], s), r);
    }
  }

  /** `split` loses nothing and leaves no separator inside a piece: joining with the separator gives the text back. */
  lemma {:induction false} SplitJoin(t: string, s: string)
    requires s != ""
    ensures Join(Split(t, s), s) == t
    ensures forall i :: 0 <= i < |Split(t, s)| ==> !Occurs(s, Split(t, s)[i])
    decreases |t|
  {
    IndexOfIsFirst(s, t, 0);
    var k := IndexOf(s, t, 0);
    if k != -1 {
      SplitJoin(t[k + |s|..], s);
      JoinCons(t[..k], Split(t[k + |s|..], s), s);
      CutAt(t, k, k + |s|);
      if Occurs(s, t[..k]) {
        OccursBefore(s, t, k);
      }
    }
  }

  lemma OccursBefore(x: string, t: string, k: nat)
    requires k <= |t| && Occurs(x, t[..k])
    ensures exists j :: j + |x| <= k && OccursAt(x, t, j)
  {
    var j :| OccursAt(x, t[..k], j);
    assert t[..k][j..j + |x|] == t[j..j + |x|];
    assert OccursAt(x, t, j);
  }

  /** Nothing that stands in a part stands outside the whole. */
  lemma OccursInPart(x: string, a: string, b: string, c: string)
    requires Occurs(x, b)
    ensures Occurs(x, a + b + c)
  {
    var k :| OccursAt(x, b, k);
    assert (a + b + c)[|a| + k..|a| + k + |x|] == b[k..k + |x|];
    assert OccursAt(x, a + b + c, |a| + k);
  }

  lemma SuffixFree(x: string, t: string, i: nat)
    requires i <= |t| && !Occurs(x, t)
    ensures !Occurs(x, t[i..])
  {
    if Occurs(x, t[i..]) {
      assert t[..i] + t[i..] + "" == t;
      OccursInPart(x, t[..i], t[i..], "");
    }
  }

  lemma OccursLeft(a: string, b: string, s: string, k: int)
    requires k + |s| <= |a|
    ensures OccursAt(s, a + b, k) <==> OccursAt(s, a, k)
  {
    if 0 <= k {
      assert (a + b)[k..k + |s|] == a[k..k + |s|];
    }
  }

  lemma OccursRight(a: string, b: string, s: string, k: int)
    requires 0 <= k
    ensures OccursAt(s, a + b, |a| + k) <==> OccursAt(s, b, k)
  {
    if k + |s| <= |b| {
      assert (a + b)[|a| + k..|a| + k + |s|] == b[k..k + |s|];
    }
  }

  lemma CharOccurs(x: string, t: string, c: char)
    requires c in x && Occurs(x, t)
    ensures c in t
  {
    var i :| 0 <= i < |x| && x[i] == c;
    var k :| OccursAt(x, t, k);
    assert t[k + i] == c;
  }

  /** A character that `x` does not hold keeps `x` from standing across it. */
  lemma Barrier(x: string, a: string, c: char, b: string)
    requires c !in x && Occurs(x, a + [c] + b)
    ensures Occurs(x, a) || Occurs(x, b)
  {
    var t := a + [c] + b;
    var k :| OccursAt(x, t, k);
    assert t == a + ([c] + b);
    assert t[|a|] == c && forall i :: k <= i < k + |x| ==> t[i] == x[i - k];
    if k + |x| <= |a| {
      OccursLeft(a, [c] + b, x, k);
    } else {
      OccursRight(a + [c], b, x, k - |a| - 1);
    }
  }

  /** Replacing a text by itself gives the replacement. */
  lemma ReplaceWhole(s: string, r: string)
    requires s != ""
    ensures ReplaceAll(s, s, r) == r
  {
    assert OccursAt(s, s, 0);
    assert s[|s|..] == "";
  }

  /** Splitting at one character takes a text apart at every place it stands. */
  lemma {:induction false} SplitAppend(a: string, b: string, c: char)
    ensures Split(a + [c] + b, [c]) == Split(a, [c]) + Split(b, [c])
    decreases |a|
  {
    var k := IndexOf([c], a, 0);
    FirstOf(a, c);
    if k == -1 {
      SplitAt(a, b, c);
      assert Split(a, [c]) == [a];
    } else {
      var head, rest := a[..k], a[k + 1..];
      assert a == head + [c] + rest;
      SplitAppend(rest, b, c);
      SplitAt(head, rest, c);
      SplitAt(head, rest + [c] + b, c);
      Regroup([head], Split(rest, [c]), Split(b, [c]));
      Regroup(head + [c], rest + [c], b);
      Regroup(head + [c], rest, [c]);
    }
  }

  /** Two separators in a row enclose an empty piece. */
  lemma SplitAtPair(a: string, b: string, c: char)
    ensures Split(a + [c, c] + b, [c]) == Split(a, [c]) + [""] + Split(b, [c])
  {
    SplitAppend(a, [c] + b, c);
    SplitAt("", b, c);
    assert "" + [c] + b == [c] + b;
    assert a + [c] + ([c] + b) == a + [c, c] + b;
    assert Split([c] + b, [c]) == [""] + Split(b, [c]);
    Regroup(Split(a, [c]), [""], Split(b, [c]));
  }

  /** The first piece ends at the first separator. */
  lemma SplitAt(a: string, b: string, c: char)
    requires c !in a
    ensures Split(a + [c] + b, [c]) == [a] + Split(b, [c])
  {
    var t := a + [c] + b;
    assert t[|a|] == c && forall j :: 0 <= j < |a| ==> t[j] == a[j];
    FirstOf(t, c);
    assert IndexOf([c], t, 0) == |a|;
    assert t[..|a|] == a && t[|a| + 1..] == b;
  }

  lemma FirstOf(t: string, c: char)
    ensures var k := IndexOf([c], t, 0);
            if k == -1 then c !in t else k < |t| && t[k] == c && forall j :: 0 <= j < k ==> t[j] != c
  {
    IndexOfIsFirst([c], t, 0);
    forall j {:trigger t[j]} | 0 <= j < |t| ensures t[j] == c <==> OccursAt([c], t, j) {
      assert t[j..j + 1] == [t[j]];
    }
  }
}
