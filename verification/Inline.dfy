/** `inline` of `markdown-view.tsx`: code, bold and links inside a line. */
module Inline {
  import opened Options
  import opened Text

  datatype Node = Plain(text: string) | Code(text: string) | Strong(text: string) | Link(text: string, href: string)

  /** The characters of the input a node stands for. */
  function Source(n: Node): string {
    match n
    case Plain(t) => t
    case Code(t) => "`" + t + "`"
    case Strong(t) => "**" + t + "**"
    case Link(t, href) => "[" + t + "](" + href + ")"
  }

  /** The end of the run of characters other than `c` from `i`. */
  function RunEnd(t: string, i: nat, c: char): (e: nat)
    requires i <= |t|
    ensures i <= e <= |t|
    decreases |t| - i
  {
    if i < |t| && t[i] != c then RunEnd(t, i + 1, c) else i
  }

  lemma {:induction false} RunEndIsFirst(t: string, i: nat, c: char)
    requires i <= |t|
    ensures var e := RunEnd(t, i, c); (forall k :: i <= k < e ==> t[k] != c) && (e < |t| ==> t[e] == c)
    decreases |t| - i
  {
    if i < |t| && t[i] != c {
      RunEndIsFirst(t, i + 1, c);
    }
  }

  /** `t[e]` is the character `c`. */
  predicate At(t: string, e: nat, c: char) { e < |t| && t[e] == c }

  /** /`[^`]+`/ at `p`: the position of its closing backtick. */
  function CodeAt(t: string, p: nat): Option<nat>
    requires p <= |t|
  {
    if !At(t, p, '`') then None
    else
      var e := RunEnd(t, p + 1, '`');
      if e > p + 1 && At(t, e, '`') then Some(e) else None
  }

  // /\*\*[^*]+\*\*/ at `p`: the position of its closing stars.
  function StrongAt(t: string, p: nat): Option<nat>
    requires p <= |t|
  {
    if !(At(t, p, '*') && At(t, p + 1, '*')) then None
    else
      var e := RunEnd(t, p + 2, '*');
      if e > p + 2 && At(t, e, '*') && At(t, e + 1, '*') then Some(e) else None
  }

  /** /\[[^\]]+\]\([^)]+\)/ at `p`: the positions of its closing brackets. */
  function LinkAt(t: string, p: nat): Option<(nat, nat)>
    requires p <= |t|
  {
    if !At(t, p, '[') then None
    else
      var e := RunEnd(t, p + 1, ']');
      if !(e > p + 1 && At(t, e, ']') && At(t, e + 1, '(')) then None
      else
        var f := RunEnd(t, e + 2, ')');
        if f > e + 2 && At(t, f, ')') then Some((e, f)) else None
  }

  /** The token that starts at `p`, with the position behind it. */
  function TokenAt(t: string, p: nat): (r: Option<(Node, nat)>)
    requires p <= |t|
    ensures r.Some? ==> p < r.value.1 <= |t| && !r.value.0.Plain?
  {
    if CodeAt(t, p).Some? then Some((Code(t[p + 1..CodeAt(t, p).value]), CodeAt(t, p).value + 1))
    else if StrongAt(t, p).Some? then Some((Strong(t[p + 2..StrongAt(t, p).value]), StrongAt(t, p).value + 2))
    else if LinkAt(t, p).Some? then
      var (e, f) := LinkAt(t, p).value;
      Some((Link(t[p + 1..e], t[e + 2..f]), f + 1))
    else None
  }

  /**
   `nodes` is the reading of `t`, cut at `cuts`: every token stands where it begins, every text runs to the
   first token behind it or to the end, and nothing lies between.
   */
  ghost predicate Reads(t: string, nodes: seq<Node>, cuts: seq<nat>) {
    && |cuts| == |nodes| + 1 && cuts[0] == 0 && cuts[|nodes|] <= |t|
    && forall k :: 0 <= k < |nodes| ==> NodeAt(t, nodes, cuts, k)
  }

  ghost predicate NodeAt(t: string, nodes: seq<Node>, cuts: seq<nat>, k: nat)
    requires k < |nodes| && |cuts| == |nodes| + 1
  {
    var from, to := cuts[k], cuts[k + 1];
    && from < to <= |t| && Source(nodes[k]) == t[from..to]
    && (if nodes[k].Plain? then
          (forall j :: from <= j < to ==> TokenAt(t, j).None?) && (to == |t| || TokenAt(t, to).Some?)
        else
          TokenAt(t, from) == Some((nodes[k], to)))
  }

  /** A token stands for exactly the characters it spans. */
  lemma TokenSource(t: string, p: nat)
    requires p <= |t| && TokenAt(t, p).Some?
    ensures Source(TokenAt(t, p).value.0) == t[p..TokenAt(t, p).value.1]
  {
    if CodeAt(t, p).Some? {
      CodeSource(t, p);
    } else if StrongAt(t, p).Some? {
      StrongSource(t, p);
    } else {
      LinkSource(t, p);
    }
  }

  lemma CodeSource(t: string, p: nat)
    requires p <= |t| && CodeAt(t, p).Some?
    ensures var e := CodeAt(t, p).value; Source(Code(t[p + 1..e])) == t[p..e + 1]
  {
    var e := CodeAt(t, p).value;
    assert t[p..p + 1] == "`" == t[e..e + 1];
    assert t[p..e + 1] == t[p..p + 1] + t[p + 1..e] + t[e..e + 1];
  }

  lemma StrongSource(t: string, p: nat)
    requires p <= |t| && StrongAt(t, p).Some?
    ensures var e := StrongAt(t, p).value; Source(Strong(t[p + 2..e])) == t[p..e + 2]
  {
    var e := StrongAt(t, p).value;
    assert t[p..p + 2] == "**" == t[e..e + 2];
    assert t[p..e + 2] == t[p..p + 2] + t[p + 2..e] + t[e..e + 2];
  }

  lemma LinkSource(t: string, p: nat)
    requires p <= |t| && LinkAt(t, p).Some?
    ensures var (e, f) := LinkAt(t, p).value; Source(Link(t[p + 1..e], t[e + 2..f])) == t[p..f + 1]
  {
    var (e, f) := LinkAt(t, p).value;
    LinkPieces(t, p, e, f);
  }

  lemma LinkPieces(t: string, p: nat, e: nat, f: nat)
    requires p < e && e + 2 <= f && At(t, p, '[') && At(t, e, ']') && At(t, e + 1, '(') && At(t, f, ')')
    ensures "[" + t[p + 1..e] + "](" + t[e + 2..f] + ")" == t[p..f + 1]
  {
    assert t[p..p + 1] == "[" && t[e..e + 2] == "](" && t[f..f + 1] == ")";
    Glue(t, p, p + 1, e);
    Glue(t, p, e, e + 2);
    Glue(t, p, e + 2, f);
    Glue(t, p, f, f + 1);
  }

  /** `re.exec` from `from` on: the first position with a token, or none. */
  method Exec(t: string, from: nat) returns (m: Option<nat>)
    requires from <= |t|
    ensures m.Some? ==> from <= m.value <= |t| && TokenAt(t, m.value).Some?
    ensures forall j {:trigger TokenAt(t, j)} :: from <= j <= |t| && (m.None? || j < m.value) ==> TokenAt(t, j).None?
  {
    var i := from;
    while i <= |t|
      invariant from <= i <= |t| + 1
      invariant forall j {:trigger TokenAt(t, j)} :: from <= j < i ==> TokenAt(t, j).None?
    {
      if TokenAt(t, i).Some? {
        return Some(i);
      }
      i := i + 1;
    }
    m := None;
  }

  /** `nodes` is a reading of all of `t`. */
  ghost predicate ReadingOf(t: string, nodes: seq<Node>) {
    exists cuts :: Reads(t, nodes, cuts) && cuts[|nodes|] == |t|
  }

  /** The loop of `inline`: it reads the whole text, losing nothing. */
  method Inline(text: string) returns (nodes: seq<Node>)
    ensures ReadingOf(text, nodes)
    ensures Sources(nodes) == text
  {
    nodes := [];
    ghost var cuts: seq<nat> := [0];
    var last := 0;
    var m := Exec(text, 0);
    while m.Some?
      invariant last <= |text| && Reads(text, nodes, cuts) && cuts[|nodes|] == last
      invariant m.Some? ==> last <= m.value <= |text| && TokenAt(text, m.value).Some?
      invariant forall j {:trigger TokenAt(text, j)} :: last <= j <= |text| && (m.None? || j < m.value) ==>
                  TokenAt(text, j).None?
      decreases |text| - last
    {
      var index := m.value;
      if index > last {
        ReadsText(text, nodes, cuts, index);
        nodes, cuts := nodes + [Plain(text[last..index])], cuts + [index];
      }
      var (node, end) := TokenAt(text, index).value;
      ReadsToken(text, nodes, cuts);
      nodes, cuts := nodes + [node], cuts + [end];
      last := end;
      m := Exec(text, last);
    }
    if last < |text| {
      ReadsText(text, nodes, cuts, |text|);
      assert text[last..|text|] == text[last..];
      nodes, cuts := nodes + [Plain(text[last..])], cuts + [|text|];
    }
    NodesTile(text, nodes, cuts);
  }

  lemma ReadsMore(t: string, nodes: seq<Node>, cuts: seq<nat>, n: Node, to: nat)
    requires Reads(t, nodes, cuts) && to <= |t|
    requires NodeAt(t, nodes + [n], cuts + [to], |nodes|)
    ensures Reads(t, nodes + [n], cuts + [to])
  {
    forall k | 0 <= k < |nodes| ensures NodeAt(t, nodes + [n], cuts + [to], k) {
      assert NodeAt(t, nodes, cuts, k);
    }
  }

  lemma ReadsText(t: string, nodes: seq<Node>, cuts: seq<nat>, to: nat)
    requires Reads(t, nodes, cuts) && cuts[|nodes|] < to <= |t|
    requires forall j :: cuts[|nodes|] <= j < to ==> TokenAt(t, j).None?
    requires to == |t| || TokenAt(t, to).Some?
    ensures Reads(t, nodes + [Plain(t[cuts[|nodes|]..to])], cuts + [to])
  {
    ReadsMore(t, nodes, cuts, Plain(t[cuts[|nodes|]..to]), to);
  }

  lemma ReadsToken(t: string, nodes: seq<Node>, cuts: seq<nat>)
    requires Reads(t, nodes, cuts) && TokenAt(t, cuts[|nodes|]).Some?
    ensures var (node, end) := TokenAt(t, cuts[|nodes|]).value; Reads(t, nodes + [node], cuts + [end])
  {
    var (node, end) := TokenAt(t, cuts[|nodes|]).value;
    TokenSource(t, cuts[|nodes|]);
    ReadsMore(t, nodes, cuts, node, end);
  }

  function Sources(nodes: seq<Node>): string {
    if nodes == [] then "" else Sources(nodes[..|nodes| - 1]) + Source(nodes[|nodes| - 1])
  }

  /** The nodes tile the text up to their last cut. */
  lemma {:induction false} NodesTile(t: string, nodes: seq<Node>, cuts: seq<nat>)
    requires Reads(t, nodes, cuts)
    ensures Sources(nodes) == t[..cuts[|nodes|]]
    decreases |nodes|
  {
    if nodes != [] {
      var n := |nodes| - 1;
      ReadsLess(t, nodes, cuts);
      NodesTile(t, nodes[..n], cuts[..n + 1]);
      assert NodeAt(t, nodes, cuts, n);
      Glue(t, 0, cuts[n], cuts[n + 1]);
      assert nodes[..n] == nodes[..|nodes| - 1];
    }
  }

  lemma ReadsLess(t: string, nodes: seq<Node>, cuts: seq<nat>)
    requires Reads(t, nodes, cuts) && nodes != []
    ensures Reads(t, nodes[..|nodes| - 1], cuts[..|nodes|])
  {
    var n := |nodes| - 1;
    assert NodeAt(t, nodes, cuts, n);
    var ns, cs := nodes[..n], cuts[..n + 1];
    forall k | 0 <= k < n ensures NodeAt(t, ns, cs, k) {
      assert NodeAt(t, nodes, cuts, k);
    }
  }

  /** A text has one reading only. */
  lemma ReadingIsSettled(t: string, a: seq<Node>, b: seq<Node>)
    requires ReadingOf(t, a) && ReadingOf(t, b)
    ensures a == b
  {
    var x :| Reads(t, a, x) && x[|a|] == |t|;
    var y :| Reads(t, b, y) && y[|b|] == |t|;
    var n := if |a| <= |b| then |a| else |b|;
    ReadingIsUnique(t, a, x, b, y, n);
    assert n < |a| ==> NodeAt(t, a, x, n);
    assert n < |b| ==> NodeAt(t, b, y, n);
    assert a[..|a|] == a && b[..|b|] == b;
  }

  /** Two readings agree node by node as far as both go. */
  lemma {:induction false} ReadingIsUnique(t: string, a: seq<Node>, x: seq<nat>, b: seq<Node>, y: seq<nat>, k: nat)
    requires Reads(t, a, x) && Reads(t, b, y) && k <= |a| && k <= |b|
    ensures x[k] == y[k] && a[..k] == b[..k]
    decreases k
  {
    if k > 0 {
      var n := k - 1;
      ReadingIsUnique(t, a, x, b, y, n);
      assert NodeAt(t, a, x, n) && NodeAt(t, b, y, n);
      SameNode(t, a[n], b[n], x[n], x[k], y[k]);
      assert a[..k] == a[..n] + [a[n]] && b[..k] == b[..n] + [b[n]];
    }
  }

  lemma SameNode(t: string, a: Node, b: Node, from: nat, x: nat, y: nat)
    requires NodeAt(t, [a], [from, x], 0) && NodeAt(t, [b], [from, y], 0)
    ensures a == b && x == y
  {
  }

  /**
   The link token is matched once more, without an anchor, to read its two groups: that match always
   succeeds, at the very start, with the groups of the first match.
   */
  lemma LinkRematches(t: string, p: nat)
    requires p <= |t| && LinkAt(t, p).Some?
    ensures var (e, f) := LinkAt(t, p).value;
            var tok := t[p..f + 1];
            LinkAt(tok, 0) == Some((e - p, f - p))
            && tok[1..e - p] == t[p + 1..e] && tok[e - p + 2..f - p] == t[e + 2..f]
  {
    var (e, f) := LinkAt(t, p).value;
    RunsInToken(t, p, e, f);
    LinkFromRuns(t[p..f + 1], e - p, f - p);
    SliceOfSlice(t, p, f + 1, 1, e - p);
    SliceOfSlice(t, p, f + 1, e - p + 2, f - p);
  }

  lemma RunsInToken(t: string, p: nat, e: nat, f: nat)
    requires p + 1 < e && e + 2 < f && At(t, p, '[') && At(t, e, ']') && At(t, e + 1, '(') && At(t, f, ')')
    requires RunEnd(t, p + 1, ']') == e && RunEnd(t, e + 2, ')') == f
    ensures var tok := t[p..f + 1];
            && At(tok, 0, '[') && At(tok, e - p, ']') && At(tok, e - p + 1, '(') && At(tok, f - p, ')')
            && RunEnd(tok, 1, ']') == e - p && RunEnd(tok, e - p + 2, ')') == f - p
  {
    RunEndShift(t, p, f + 1, 1, ']');
    RunEndShift(t, p, f + 1, e - p + 2, ')');
  }

  lemma LinkFromRuns(tok: string, e: nat, f: nat)
    requires 1 < e && e + 2 < f < |tok| && At(tok, 0, '[') && At(tok, e, ']') && At(tok, e + 1, '(') && At(tok, f, ')')
    requires RunEnd(tok, 1, ']') == e && RunEnd(tok, e + 2, ')') == f
    ensures LinkAt(tok, 0) == Some((e, f))
  {
  }

  /** A run seen in a slice is the run of the text. */
  lemma {:induction false} RunEndShift(t: string, lo: nat, hi: nat, i: nat, c: char)
    requires lo + i < hi <= |t| && RunEnd(t, lo + i, c) < hi
    ensures RunEnd(t[lo..hi], i, c) == RunEnd(t, lo + i, c) - lo
    decreases hi - i
  {
    if t[lo + i] != c {
      RunEndShift(t, lo, hi, i + 1, c);
    }
  }
}
