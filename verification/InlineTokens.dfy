/** Which characters are a token of `inline`, and that nodes written down are read back. */
module InlineTokens {
  import opened Inline
  import opened Options
  import opened Text

  /** A token that can be written down: not empty, and free of the character that closes it. */
  predicate Written(n: Node) {
    match n
    case Plain(_) => false
    case Code(text) => text != "" && '`' !in text
    case Strong(text) => text != "" && '*' !in text
    case Link(text, href) => text != "" && ']' !in text && href != "" && ')' !in href
  }

  /** The characters of `t` from `p` to `e` are those of the token `n`. */
  ghost predicate StandsAt(t: string, p: nat, n: Node, e: nat) {
    Written(n) && p <= e <= |t| && t[p..e] == Source(n)
  }

  lemma {:induction false} RunIs(t: string, i: nat, e: nat, c: char)
    requires i <= e < |t| && (forall k :: i <= k < e ==> t[k] != c) && t[e] == c
    ensures RunEnd(t, i, c) == e
    decreases e - i
  {
    if i < e {
      RunIs(t, i + 1, e, c);
    }
  }

  lemma SliceChars(t: string, p: nat, e: nat, s: string)
    requires p <= e <= |t| && t[p..e] == s
    ensures |s| == e - p && forall k :: 0 <= k < |s| ==> t[p + k] == s[k]
  {
  }

  lemma CodeIsRead(t: string, p: nat, x: string, e: nat)
    requires StandsAt(t, p, Code(x), e)
    ensures TokenAt(t, p) == Some((Code(x), e))
  {
    SliceChars(t, p, e, "`" + x + "`");
    assert forall k :: 0 <= k < |x| ==> t[p + (k + 1)] == x[k];
    forall k | p + 1 <= k < e - 1 ensures t[k] != '`' {
      assert t[k] == x[k - p - 1] && x[k - p - 1] in x;
    }
    RunIs(t, p + 1, e - 1, '`');
    assert t[p + 1..e - 1] == x;
  }

  lemma StrongIsRead(t: string, p: nat, x: string, e: nat)
    requires StandsAt(t, p, Strong(x), e)
    ensures TokenAt(t, p) == Some((Strong(x), e))
  {
    var s := "**" + x + "**";
    SliceChars(t, p, e, s);
    assert s[0] == s[1] == s[|s| - 2] == s[|s| - 1] == '*';
    assert t[p + 1] == s[1] && t[p + (|s| - 2)] == s[|s| - 2];
    forall k | p + 2 <= k < e - 2 ensures t[k] == x[k - p - 2] {
      assert t[p + (k - p)] == s[k - p];
    }
    forall k | p + 2 <= k < e - 2 ensures t[k] != '*' {
      assert x[k - p - 2] in x;
    }
    RunIs(t, p + 2, e - 2, '*');
    assert t[p + 2..e - 2] == x;
  }

  lemma MiddlePart(a: string, b: string, c: string)
    ensures (a + b + c)[|a|..|a| + |b|] == b && forall k :: 0 <= k < |b| ==> (a + b + c)[|a| + k] == b[k]
  {
  }

  lemma LinkLayout(x: string, href: string)
    ensures var s, m := Source(Link(x, href)), 1 + |x|;
            && |s| == m + 3 + |href| && s[0] == '[' && s[m] == ']' && s[m + 1] == '(' && s[|s| - 1] == ')'
            && s[1..m] == x && s[m + 2..|s| - 1] == href
  {
    var s, head, tail := Source(Link(x, href)), "[" + x, href + ")";
    assert s == "[" + x + ("](" + tail) by { Regroup(head, "](", tail); Regroup(head + "](", href, ")"); }
    assert s == head + "](" + tail by { Regroup(head, "](", tail); }
    MiddlePart("[", x, "](" + tail);
    MiddlePart(head, "](", tail);
    MiddlePart(head + "](", href, ")");
    assert "]("[0] == ']' && "]("[1] == '(';
  }

  lemma LinkPlaces(t: string, p: nat, x: string, href: string, e: nat)
    requires StandsAt(t, p, Link(x, href), e)
    ensures var m := p + 1 + |x|;
            && m + 2 <= e - 1 && At(t, p, '[') && At(t, m, ']') && At(t, m + 1, '(') && At(t, e - 1, ')')
            && t[p + 1..m] == x && t[m + 2..e - 1] == href
  {
    var s, n := Source(Link(x, href)), 1 + |x|;
    LinkLayout(x, href);
    SliceChars(t, p, e, s);
    assert t[p + n] == s[n] && t[p + (n + 1)] == s[n + 1] && t[p + (|s| - 1)] == s[|s| - 1];
    SliceOfSlice(t, p, e, 1, n);
    SliceOfSlice(t, p, e, n + 2, |s| - 1);
  }

  lemma FreeOf(t: string, from: nat, to: nat, x: string, c: char)
    requires from <= to <= |t| && t[from..to] == x && c !in x
    ensures forall k :: from <= k < to ==> t[k] != c
  {
    forall k | from <= k < to ensures t[k] != c {
      assert t[k] == t[from..to][k - from] && t[k] in x;
    }
  }

  lemma LinkIsRead(t: string, p: nat, x: string, href: string, e: nat)
    requires StandsAt(t, p, Link(x, href), e)
    ensures TokenAt(t, p) == Some((Link(x, href), e))
  {
    var m := p + 1 + |x|;
    LinkPlaces(t, p, x, href, e);
    FreeOf(t, p + 1, m, x, ']');
    FreeOf(t, m + 2, e - 1, href, ')');
    RunIs(t, p + 1, m, ']');
    RunIs(t, m + 2, e - 1, ')');
  }

  lemma ReadIsWritten(t: string, p: nat)
    requires p <= |t| && TokenAt(t, p).Some?
    ensures var (n, e) := TokenAt(t, p).value; StandsAt(t, p, n, e)
  {
    TokenSource(t, p);
    if CodeAt(t, p).Some? {
      RunEndIsFirst(t, p + 1, '`');
    } else if StrongAt(t, p).Some? {
      RunEndIsFirst(t, p + 2, '*');
    } else {
      var (e, f) := LinkAt(t, p).value;
      RunEndIsFirst(t, p + 1, ']');
      RunEndIsFirst(t, e + 2, ')');
    }
  }

  /** What is a token: exactly the characters that can be written down as one. */
  lemma TokenExactly(t: string, p: nat, n: Node, e: nat)
    requires p <= |t|
    ensures TokenAt(t, p) == Some((n, e)) <==> StandsAt(t, p, n, e)
  {
    if StandsAt(t, p, n, e) {
      match n
      case Code(x) => CodeIsRead(t, p, x, e);
      case Strong(x) => StrongIsRead(t, p, x, e);
      case Link(x, href) => LinkIsRead(t, p, x, href, e);
    }
    if TokenAt(t, p) == Some((n, e)) {
      ReadIsWritten(t, p);
    }
  }

  // ----- whole lines -----

  /** A text in which no token can begin. */
  predicate Unmarked(s: string) { s != "" && '`' !in s && '*' !in s && '[' !in s }

  /** Nodes that can be written down one after the other: no two texts touch. */
  predicate Writable(nodes: seq<Node>) {
    && (forall n :: n in nodes ==> if n.Plain? then Unmarked(n.text) else Written(n))
    && forall k :: 0 <= k < |nodes| - 1 ==> !(nodes[k].Plain? && nodes[k + 1].Plain?)
  }

  lemma NoTokenIn(t: string, j: nat)
    requires j < |t| && t[j] !in {'`', '*', '['}
    ensures TokenAt(t, j).None?
  {
  }

  lemma NoTokenBetween(t: string, from: nat, to: nat, x: string)
    requires from <= to <= |t| && t[from..to] == x && Unmarked(x)
    ensures from < to && forall j :: from <= j < to ==> TokenAt(t, j).None?
  {
    forall j | from <= j < to ensures TokenAt(t, j).None? {
      assert t[j] == t[from..to][j - from] && t[j] in x;
      NoTokenIn(t, j);
    }
  }

  /** Where node `k` begins. */
  function Cut(nodes: seq<Node>, k: nat): nat
    requires k <= |nodes|
  {
    |Sources(nodes[..k])|
  }

  lemma {:induction false} SourcesBegin(nodes: seq<Node>, k: nat)
    requires k <= |nodes|
    ensures Sources(nodes[..k]) <= Sources(nodes)
    decreases |nodes|
  {
    if k == |nodes| {
      assert nodes[..k] == nodes;
    } else {
      var n := |nodes| - 1;
      SourcesBegin(nodes[..n], k);
      assert nodes[..n][..k] == nodes[..k];
    }
  }

  /** Every node stands in the text between its cuts. */
  lemma NodeStands(nodes: seq<Node>, k: nat)
    requires k < |nodes|
    ensures var t := Sources(nodes);
            Cut(nodes, k) <= Cut(nodes, k + 1) <= |t| && t[Cut(nodes, k)..Cut(nodes, k + 1)] == Source(nodes[k])
  {
    var before, upTo := nodes[..k], nodes[..k + 1];
    assert upTo[..|upTo| - 1] == before && upTo[|upTo| - 1] == nodes[k];
    SourcesBegin(nodes, k + 1);
    assert Sources(upTo) == Sources(before) + Source(nodes[k]);
    assert Sources(nodes)[..Cut(nodes, k + 1)] == Sources(upTo);
  }

  lemma TokenStands(nodes: seq<Node>, k: nat)
    requires Writable(nodes) && k < |nodes| && !nodes[k].Plain?
    ensures Cut(nodes, k) <= |Sources(nodes)|
    ensures TokenAt(Sources(nodes), Cut(nodes, k)) == Some((nodes[k], Cut(nodes, k + 1)))
  {
    NodeStands(nodes, k);
    assert nodes[k] in nodes;
    TokenExactly(Sources(nodes), Cut(nodes, k), nodes[k], Cut(nodes, k + 1));
  }

  lemma PlainStands(nodes: seq<Node>, k: nat)
    requires Writable(nodes) && k < |nodes| && nodes[k].Plain?
    ensures var from, to := Cut(nodes, k), Cut(nodes, k + 1);
            from < to <= |Sources(nodes)| && forall j :: from <= j < to ==> TokenAt(Sources(nodes), j).None?
  {
    NodeStands(nodes, k);
    assert nodes[k] in nodes;
    NoTokenBetween(Sources(nodes), Cut(nodes, k), Cut(nodes, k + 1), nodes[k].text);
  }

  /** Behind a text there is a token, or the end. */
  lemma PlainEnds(nodes: seq<Node>, k: nat)
    requires Writable(nodes) && k < |nodes| && nodes[k].Plain?
    ensures Cut(nodes, k + 1) <= |Sources(nodes)|
    ensures Cut(nodes, k + 1) == |Sources(nodes)| || TokenAt(Sources(nodes), Cut(nodes, k + 1)).Some?
  {
    if k + 1 < |nodes| {
      TokenStands(nodes, k + 1);
    } else {
      assert nodes[..k + 1] == nodes;
    }
  }

  lemma WrittenNode(nodes: seq<Node>, cuts: seq<nat>, k: nat)
    requires Writable(nodes) && k < |nodes| && |cuts| == |nodes| + 1
    requires cuts[k] == Cut(nodes, k) && cuts[k + 1] == Cut(nodes, k + 1)
    ensures NodeAt(Sources(nodes), nodes, cuts, k)
  {
    NodeStands(nodes, k);
    if nodes[k].Plain? {
      PlainStands(nodes, k);
      PlainEnds(nodes, k);
    } else {
      TokenStands(nodes, k);
    }
  }

  /** Nodes written down one after the other are the reading of what was written. */
  lemma WrittenReadsBack(nodes: seq<Node>)
    requires Writable(nodes)
    ensures ReadingOf(Sources(nodes), nodes)
  {
    var cuts := seq(|nodes| + 1, i requires 0 <= i <= |nodes| => Cut(nodes, i));
    forall k | 0 <= k < |nodes| ensures NodeAt(Sources(nodes), nodes, cuts, k) {
      WrittenNode(nodes, cuts, k);
    }
    assert nodes[..0] == [] && nodes[..|nodes|] == nodes;
    assert Reads(Sources(nodes), nodes, cuts);
  }
}
