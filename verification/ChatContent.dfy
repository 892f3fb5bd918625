/** `parseContent` of `ai-assistant.tsx`: a chat answer cut into text and fenced code. */
module ChatContent {
  import opened Text

  /** What the regular expression /```(\w*)\n?([\s\S]*?)```/ matched, or the text around it. */
  datatype Segment = Plain(text: string) | Block(lang: string, newline: bool, body: string)

  datatype PartKind = TextPart | SqlPart | CodePart
  datatype Part = Part(kind: PartKind, value: string, lang: string)

  predicate IsWord(c: char) {
    'a' <= c <= 'z' || 'A' <= c <= 'Z' || '0' <= c <= '9' || c == '_'
  }

  predicate FenceAt(t: string, k: int) {
    0 <= k && k + 3 <= |t| && t[k] == t[k + 1] == t[k + 2] == '`'
  }

  /** The characters of the input a segment stands for. */
  function Source(s: Segment): string {
    match s
    case Plain(text) => text
    case Block(lang, newline, body) => "```" + lang + (if newline then "\n" else "") + body + "```"
  }

  function Sources(ss: seq<Segment>): string {
    if ss == [] then "" else Source(ss[0]) + Sources(ss[1..])
  }

  /** The end of the longest run of word characters from `i`. */
  function WordEnd(t: string, i: nat): (e: nat)
    requires i <= |t|
    ensures i <= e <= |t|
    decreases |t| - i
  {
    if i < |t| && IsWord(t[i]) then WordEnd(t, i + 1) else i
  }

  /** The first fence at or after `i`, or -1. */
  function NextFence(t: string, i: nat): (q: int)
    requires i <= |t|
    ensures q == -1 || (i <= q && FenceAt(t, q))
    decreases |t| - i
  {
    if FenceAt(t, i) then i else if i == |t| then -1 else NextFence(t, i + 1)
  }

  /** The end of the opening after the fence at `i`: a greedy word, then a greedy line break. */
  function OpeningEnd(t: string, i: nat): (start: nat)
    requires i + 3 <= |t|
    ensures i + 3 <= start <= |t|
  {
    var w := WordEnd(t, i + 3);
    if w < |t| && t[w] == '\n' then w + 1 else w
  }

  /** The match that starts at `i`, by the position of its closing fence, or -1. */
  function MatchAt(t: string, i: nat): (q: int)
    requires i <= |t|
    ensures q != -1 ==> FenceAt(t, i) && i + 3 <= OpeningEnd(t, i) <= q && FenceAt(t, q)
  {
    if FenceAt(t, i) then NextFence(t, OpeningEnd(t, i)) else -1
  }

  /** The groups of the match at `i` that closes at `q`. */
  function BlockOf(t: string, i: nat, q: nat): (b: Segment)
    requires FenceAt(t, i) && OpeningEnd(t, i) <= q <= |t|
    ensures b.Block?
  {
    var w := WordEnd(t, i + 3);
    Block(t[i + 3..w], w < |t| && t[w] == '\n', t[OpeningEnd(t, i)..q])
  }

  lemma {:induction false} WordEndIsLongest(t: string, i: nat)
    requires i <= |t|
    ensures var e := WordEnd(t, i); (forall k :: i <= k < e ==> IsWord(t[k])) && (e < |t| ==> !IsWord(t[e]))
    decreases |t| - i
  {
    if i < |t| && IsWord(t[i]) {
      WordEndIsLongest(t, i + 1);
    }
  }

  lemma {:induction false} NextFenceIsFirst(t: string, i: nat)
    requires i <= |t|
    ensures var q := NextFence(t, i);
            forall j {:trigger FenceAt(t, j)} :: i <= j && (q == -1 || j < q) ==> !FenceAt(t, j)
    decreases |t| - i
  {
    if !FenceAt(t, i) && i < |t| {
      NextFenceIsFirst(t, i + 1);
    }
  }

  /** `i` is the first position from `from` on where the expression matches, or -1. */
  ghost predicate FirstMatch(t: string, from: nat, i: int) {
    && from <= |t|
    && (i != -1 ==> from <= i <= |t| && MatchAt(t, i) != -1)
    && (forall j {:trigger MatchAt(t, j)} :: from <= j <= |t| && (i == -1 || j < i) ==> MatchAt(t, j) == -1)
  }

  /** `match` for the match at `i`, and `regex.lastIndex` behind it. */
  function Hit(t: string, i: nat): Segment
    requires i <= |t| && MatchAt(t, i) != -1
  {
    BlockOf(t, i, MatchAt(t, i))
  }

  function EndOfHit(t: string, i: nat): nat
    requires i <= |t| && MatchAt(t, i) != -1
  {
    MatchAt(t, i) + 3
  }

  /** `regex.exec` from `from` on. */
  method Exec(t: string, from: nat) returns (i: int)
    requires from <= |t|
    ensures FirstMatch(t, from, i)
  {
    i := from;
    while i <= |t|
      invariant from <= i <= |t| + 1
      invariant forall j {:trigger MatchAt(t, j)} :: from <= j < i ==> MatchAt(t, j) == -1
    {
      if MatchAt(t, i) != -1 {
        return;
      }
      i := i + 1;
    }
    i := -1;
  }

  function ToPart(s: Segment): Part {
    match s
    case Plain(text) => Part(TextPart, text, "")
    case Block(lang, _, body) =>
      Part(if Lower(lang) == "sql" then SqlPart else CodePart, Trim(body), if lang == "" then "code" else lang)
  }

  function ToParts(ss: seq<Segment>): (ps: seq<Part>)
    ensures |ps| == |ss| && forall k :: 0 <= k < |ss| ==> ps[k] == ToPart(ss[k])
  {
    seq(|ss|, k requires 0 <= k < |ss| => ToPart(ss[k]))
  }

  /** No fence begins inside `s` when a fence follows it. */
  ghost predicate ClosedBy(s: string) {
    forall j :: 0 <= j < |s| ==> !FenceAt(s + "```", j)
  }

  ghost predicate FencePair(s: string) {
    exists p, q :: 0 <= p && p + 3 <= q && FenceAt(s, p) && FenceAt(s, q)
  }

  ghost predicate CanonicalBlock(b: Segment) {
    b.Block? && (forall c :: c in b.lang ==> IsWord(c)) && ClosedBy(b.body)
    && (!b.newline && b.body != "" ==> b.body[0] != '\n' && !IsWord(b.body[0]))
  }

  /**
   A segmentation that says nothing twice: texts are not empty and do not touch, a text before a block
   holds no fence, a body holds no fence, and only the last text may hold fences, no two of them apart.
   When `open`, more segments may follow.
   */
  ghost predicate Canonical(ss: seq<Segment>, open: bool) {
    forall k :: 0 <= k < |ss| ==> Fits(ss, k, open)
  }

  ghost predicate Fits(ss: seq<Segment>, k: nat, open: bool)
    requires k < |ss|
  {
    if ss[k].Block? then CanonicalBlock(ss[k])
    else
      && ss[k].text != ""
      && (if k + 1 < |ss| then ClosedBy(ss[k].text) && ss[k + 1].Block? else !open && !FencePair(ss[k].text))
  }

  /** What a match stands for is exactly its source. */
  lemma BlockSource(t: string, i: nat)
    requires i <= |t| && MatchAt(t, i) != -1
    ensures var q := MatchAt(t, i); Source(BlockOf(t, i, q)) == t[i..q + 3]
  {
    SourceAt(t, i, WordEnd(t, i + 3), OpeningEnd(t, i), MatchAt(t, i));
  }

  lemma SourceAt(t: string, i: nat, w: nat, start: nat, q: nat)
    requires i + 3 <= w <= start <= q && FenceAt(t, i) && FenceAt(t, q)
    requires start == w || (start == w + 1 && t[w] == '\n')
    ensures Source(Block(t[i + 3..w], start == w + 1, t[start..q])) == t[i..q + 3]
  {
    var lang, nl, body := t[i + 3..w], t[w..start], t[start..q];
    assert t[i..i + 3] == "```" && t[q..q + 3] == "```";
    assert nl == if start == w + 1 then "\n" else "";
    assert "```" + lang == t[i..w] by { Glue(t, i, i + 3, w); }
    assert "```" + lang + nl == t[i..start] by { Glue(t, i, w, start); }
    assert "```" + lang + nl + body == t[i..q] by { Glue(t, i, start, q); }
    assert "```" + lang + nl + body + "```" == t[i..q + 3] by { Glue(t, i, q, q + 3); }
  }

  lemma SourcesAppend(a: seq<Segment>, b: seq<Segment>)
    ensures Sources(a + b) == Sources(a) + Sources(b)
  {
    if a == [] {
      assert a + b == b;
    } else {
      assert (a + b)[1..] == a[1..] + b;
      SourcesAppend(a[1..], b);
    }
  }

  lemma SourcesOne(s: Segment)
    ensures Sources([s]) == Source(s)
  {
    assert [s][1..] == [];
    assert Source(s) + "" == Source(s);
  }

  /** Greed costs no match: wherever two fences stand apart, the first one starts a match. */
  lemma PairMatches(t: string, p: nat, q: nat)
    requires p + 3 <= q && FenceAt(t, p) && FenceAt(t, q)
    ensures MatchAt(t, p) != -1
  {
    WordEndIsLongest(t, p + 3);
    assert t[q] == '`';
    NextFenceIsFirst(t, OpeningEnd(t, p));
  }

  /** Fences seen in a slice are fences of the text, and the other way round. */
  lemma FenceInSlice(t: string, lo: nat, hi: nat, j: nat)
    requires lo <= hi <= |t| && lo + j + 3 <= hi
    ensures FenceAt(t[lo..hi], j) <==> FenceAt(t, lo + j)
  {
  }

  /** A slice that ends where a fence begins, with the fence behind it. */
  lemma SliceClosed(t: string, lo: nat, hi: nat)
    requires lo <= hi && FenceAt(t, hi)
    ensures t[lo..hi] + "```" == t[lo..hi + 3]
    ensures ClosedBy(t[lo..hi]) <==> forall j {:trigger FenceAt(t, j)} :: lo <= j < hi ==> !FenceAt(t, j)
  {
    assert t[hi..hi + 3] == "```";
    assert t[lo..hi] + "```" == t[lo..hi + 3];
    forall j | lo <= j < hi ensures FenceAt(t[lo..hi] + "```", j - lo) <==> FenceAt(t, j) {
      if j + 3 <= hi + 3 {
        FenceInSlice(t, lo, hi + 3, j - lo);
      }
    }
    if forall j {:trigger FenceAt(t, j)} :: lo <= j < hi ==> !FenceAt(t, j) {
      forall j | 0 <= j < hi - lo ensures !FenceAt(t[lo..hi] + "```", j) {
        assert !FenceAt(t, lo + j);
      }
    }
    if ClosedBy(t[lo..hi]) {
      forall j {:trigger FenceAt(t, j)} | lo <= j < hi ensures !FenceAt(t, j) {
        assert !FenceAt(t[lo..hi] + "```", j - lo);
      }
    }
  }

  lemma BlockIsCanonical(t: string, i: nat)
    requires i <= |t| && MatchAt(t, i) != -1
    ensures CanonicalBlock(BlockOf(t, i, MatchAt(t, i)))
  {
    var q := MatchAt(t, i);
    WordEndIsLongest(t, i + 3);
    NextFenceIsFirst(t, OpeningEnd(t, i));
    SliceClosed(t, OpeningEnd(t, i), q);
  }

  /** The text before a match holds no fence. */
  lemma TextIsClosed(t: string, last: nat, i: nat)
    requires last <= i <= |t| && MatchAt(t, i) != -1
    requires forall j :: last <= j < i ==> MatchAt(t, j) == -1
    ensures ClosedBy(t[last..i])
  {
    forall j | last <= j < i ensures !FenceAt(t, j) {
      if FenceAt(t, j) {
        PairMatches(t, j, MatchAt(t, i));
      }
    }
    SliceClosed(t, last, i);
  }

  /** Without a match no two fences stand apart, and the other way round. */
  lemma RestHasNoPair(t: string, last: nat)
    requires last <= |t|
    ensures FencePair(t[last..]) <==> exists j :: last <= j <= |t| && MatchAt(t, j) != -1
  {
    var x := t[last..];
    if FencePair(x) {
      var p, q :| 0 <= p && p + 3 <= q && FenceAt(x, p) && FenceAt(x, q);
      PairMatches(t, last + p, last + q);
    }
    if j :| last <= j <= |t| && MatchAt(t, j) != -1 {
      assert FenceAt(x, j - last) && FenceAt(x, MatchAt(t, j) - last);
    }
  }

  /** Reading a canonical block back, whatever stands around it. */
  lemma MatchReadsBack(t: string, i: nat, b: Segment)
    requires CanonicalBlock(b) && i + |Source(b)| <= |t| && t[i..i + |Source(b)|] == Source(b)
    ensures MatchAt(t, i) == i + |Source(b)| - 3 && BlockOf(t, i, MatchAt(t, i)) == b
  {
    var w, start, q := BlockLayout(t, i, b);
    assert forall k :: i + 3 <= k < w ==> IsWord(t[k]) by {
      assert forall k :: i + 3 <= k < w ==> t[k] == t[i + 3..w][k - i - 3];
    }
    WordEndIsLongest(t, i + 3);
    NextFenceIsFirst(t, start);
    assert WordEnd(t, i + 3) == w;
    assert OpeningEnd(t, i) == start;
    SliceClosed(t, start, q);
    assert NextFence(t, start) == q;
  }

  /** Where the pieces of a block lie. */
  lemma BlockLayout(t: string, i: nat, b: Segment) returns (w: nat, start: nat, q: nat)
    requires CanonicalBlock(b) && i + |Source(b)| <= |t| && t[i..i + |Source(b)|] == Source(b)
    ensures i + 3 <= w <= start <= q && q + 3 == i + |Source(b)| && start == (if b.newline then w + 1 else w)
    ensures FenceAt(t, i) && FenceAt(t, q) && t[i + 3..w] == b.lang && t[start..q] == b.body
    ensures !IsWord(t[w]) && (t[w] == '\n' <==> b.newline)
  {
    var head := 3 + |b.lang|;
    var opening := if b.newline then head + 1 else head;
    var all := opening + |b.body|;
    w, start, q := i + head, i + opening, i + all;
    SourceLayout(b);
    LayoutMoves(t, i, Source(b), head, opening, all);
  }

  lemma LayoutMoves(t: string, i: nat, s: string, w: nat, start: nat, q: nat)
    requires i + |s| <= |t| && t[i..i + |s|] == s && 3 <= w <= start <= q && q + 3 == |s|
    requires FenceAt(s, 0) && FenceAt(s, q)
    ensures FenceAt(t, i) && FenceAt(t, i + q) && t[i + w] == s[w]
    ensures t[i + 3..i + w] == s[3..w] && t[i + start..i + q] == s[start..q]
  {
    SliceOfSlice(t, i, i + |s|, 3, w);
    SliceOfSlice(t, i, i + |s|, start, q);
    FenceMoves(t, i, s, 0);
    FenceMoves(t, i, s, q);
    assert t[i..i + |s|][w] == t[i + w];
  }

  lemma FenceMoves(t: string, i: nat, s: string, k: nat)
    requires i + |s| <= |t| && t[i..i + |s|] == s && FenceAt(s, k)
    ensures FenceAt(t, i + k)
  {
    assert t[i + k] == s[k] && t[i + k + 1] == s[k + 1] && t[i + k + 2] == s[k + 2];
  }

  lemma SourceLayout(b: Segment)
    requires CanonicalBlock(b)
    ensures var s := Source(b);
            var w := 3 + |b.lang|;
            var start := if b.newline then w + 1 else w;
            var q := start + |b.body|;
            && |s| == q + 3 && FenceAt(s, 0) && FenceAt(s, q) && s[3..w] == b.lang && s[start..q] == b.body
            && !IsWord(s[w]) && (s[w] == '\n' <==> b.newline)
  {
    var s := Source(b);
    var head := "```" + b.lang;
    var opening := head + (if b.newline then "\n" else "");
    assert s == opening + b.body + "```";
    var w, start := |head|, |opening|;
    var q := start + |b.body|;
    assert s[..w] == head && s[start..q] == b.body && s[q..] == "```";
    assert s[3..w] == s[..w][3..] == b.lang;
    assert s[q] == s[q..][0] && s[q + 1] == s[q..][1] && s[q + 2] == s[q..][2];
    assert s[0] == head[0] && s[1] == head[1] && s[2] == head[2];
    assert s[w] == if b.newline then '\n' else if b.body == "" then '`' else b.body[0];
  }

  /** How a segment at the front shows in the text: as its first match, or as all that precedes it. */
  ghost predicate Leads(t: string, s: Segment) {
    if s.Block? then MatchAt(t, 0) != -1 && s == BlockOf(t, 0, MatchAt(t, 0))
    else
      var n := |s.text|;
      && 0 < n <= |t| && s.text == t[..n] && (forall j :: 0 <= j < n ==> MatchAt(t, j) == -1)
      && (n == |t| || MatchAt(t, n) != -1)
  }

  lemma LeadingBlock(t: string, at: nat, b: Segment, rest: string)
    requires CanonicalBlock(b) && at <= |t| && t[at..] == Source(b) + rest
    ensures MatchAt(t, at) != -1 && BlockOf(t, at, MatchAt(t, at)) == b
  {
    var n := |Source(b)|;
    assert t[at..at + n] == t[at..][..n] == Source(b);
    MatchReadsBack(t, at, b);
  }

  lemma LeadingText(t: string, n: nat)
    requires 0 < n <= |t| && ClosedBy(t[..n]) && FenceAt(t, n)
    ensures forall j :: 0 <= j < n ==> MatchAt(t, j) == -1
  {
    assert t[0..n] == t[..n];
    SliceClosed(t, 0, n);
  }

  lemma Heads(ss: seq<Segment>)
    requires ss != []
    ensures var t, s := Sources(ss), Source(ss[0]);
            |s| <= |t| && t[..|s|] == s && t[|s|..] == Sources(ss[1..])
  {
    var t, s, r := Sources(ss), Source(ss[0]), Sources(ss[1..]);
    assert t == s + r;
  }

  lemma FirstSegment(ss: seq<Segment>)
    requires ss != [] && Canonical(ss, false)
    ensures Leads(Sources(ss), ss[0])
  {
    var t := Sources(ss);
    Heads(ss);
    assert Fits(ss, 0, false) && (|ss| > 1 ==> Fits(ss, 1, false));
    if ss[0].Block? {
      assert t[0..] == t;
      LeadingBlock(t, 0, ss[0], Sources(ss[1..]));
    } else if |ss| == 1 {
      assert ss[1..] == [] && t == ss[0].text + "";
      assert t == ss[0].text && t[0..] == t && !FencePair(ss[0].text);
      RestHasNoPair(t, 0);
      assert forall j :: 0 <= j <= |t| ==> MatchAt(t, j) == -1;
    } else {
      var n := |ss[0].text|;
      LeadingBlock(t, n, ss[1], Sources(ss[1..][1..]));
      LeadingText(t, n);
    }
  }

  /**
   A text has one canonical segmentation only, so what `ParseContent` returns is settled by the text:
   reading back what segments write down gives the same segments.
   */
  lemma {:induction false} CanonicalUnique(a: seq<Segment>, b: seq<Segment>)
    requires Canonical(a, false) && Canonical(b, false) && Sources(a) == Sources(b)
    ensures a == b
    decreases |a|
  {
    if a == [] || b == [] {
      if a != [] {
        SourceNotEmpty(a);
      }
      if b != [] {
        SourceNotEmpty(b);
      }
    } else {
      FirstSegment(a);
      FirstSegment(b);
      SameLead(Sources(a), a[0], b[0]);
      Heads(a);
      Heads(b);
      CanonicalTail(a);
      CanonicalTail(b);
      CanonicalUnique(a[1..], b[1..]);
      SameHeadAndTail(a, b);
    }
  }

  lemma CanonicalTail(ss: seq<Segment>)
    requires ss != [] && Canonical(ss, false)
    ensures Canonical(ss[1..], false)
  {
    var tail := ss[1..];
    forall k | 0 <= k < |tail| ensures Fits(tail, k, false) {
      assert Fits(ss, k + 1, false);
    }
  }

  lemma SourceNotEmpty(ss: seq<Segment>)
    requires Canonical(ss, false) && ss != []
    ensures Sources(ss) != ""
  {
    Heads(ss);
    assert Fits(ss, 0, false);
  }

  lemma SameLead(t: string, a: Segment, b: Segment)
    requires Leads(t, a) && Leads(t, b)
    ensures a == b
  {
    if a.Plain? && b.Plain? {
      assert |a.text| == |b.text|;
    }
  }

  /** `parts` are what canonical segments that tile `content` turn into. */
  ghost predicate PartsOf(content: string, parts: seq<Part>) {
    exists segments :: Canonical(segments, false) && Sources(segments) == content && parts == ToParts(segments)
  }

  /** A text has one such list of parts. */
  lemma PartsAreSettled(content: string, a: seq<Part>, b: seq<Part>)
    requires PartsOf(content, a) && PartsOf(content, b)
    ensures a == b
  {
    var x :| Canonical(x, false) && Sources(x) == content && a == ToParts(x);
    var y :| Canonical(y, false) && Sources(y) == content && b == ToParts(y);
    CanonicalUnique(x, y);
  }

  /**
   The loop of `parseContent`: it cuts the text into its canonical segmentation, which tiles the text
   without loss, and turns every segment into a part.
   */
  method ParseContent(content: string) returns (parts: seq<Part>)
    ensures PartsOf(content, parts)
  {
    parts := [];
    ghost var segments: seq<Segment> := [];
    var last := 0;
    var i := Exec(content, 0);
    while i != -1
      invariant FirstMatch(content, last, i) && Done(segments, content, last)
      invariant parts == ToParts(segments)
      decreases |content| - last
    {
      segments := NextSegments(segments, content, last, i);
      if i > last {
        parts := parts + [ToPart(Plain(content[last..i]))];
      }
      parts := parts + [ToPart(Hit(content, i))];
      last := EndOfHit(content, i);
      i := Exec(content, last);
    }
    EndIsParts(segments, content, last);
    if last < |content| {
      parts := parts + [ToPart(Plain(content[last..]))];
    }
  }

  /** What is left behind the last match completes the parts. */
  lemma EndIsParts(ss: seq<Segment>, t: string, last: nat)
    requires Done(ss, t, last) && FirstMatch(t, last, -1)
    ensures PartsOf(t, if last < |t| then ToParts(ss) + [ToPart(Plain(t[last..]))] else ToParts(ss))
  {
    EndExtends(ss, t, last);
    if last < |t| {
      ToPartsAppend(ss, Plain(t[last..]));
    }
  }

  lemma ToPartsAppend(ss: seq<Segment>, s: Segment)
    ensures ToParts(ss + [s]) == ToParts(ss) + [ToPart(s)]
  {
  }

  /** What the loop has cut so far. */
  ghost predicate Done(ss: seq<Segment>, t: string, last: nat) {
    && last <= |t| && Sources(ss) == t[..last] && Canonical(ss, true)
    && (ss != [] ==> ss[|ss| - 1].Block?)
  }

  /** What one turn of the loop adds, as segments and as parts. */
  lemma NextSegments(ss: seq<Segment>, t: string, last: nat, i: nat) returns (next: seq<Segment>)
    requires Done(ss, t, last) && i != -1 && FirstMatch(t, last, i)
    ensures Done(next, t, EndOfHit(t, i)) && last < EndOfHit(t, i)
    ensures ToParts(next) == (if i > last then ToParts(ss) + [ToPart(Plain(t[last..i]))] else ToParts(ss))
                             + [ToPart(Hit(t, i))]
  {
    var cut := if i > last then ss + [Plain(t[last..i])] else ss;
    next := cut + [Hit(t, i)];
    IterationExtends(ss, t, last, i);
    ToPartsAppend(cut, Hit(t, i));
    if i > last {
      ToPartsAppend(ss, Plain(t[last..i]));
    }
  }

  lemma IterationExtends(ss: seq<Segment>, t: string, last: nat, i: nat)
    requires Done(ss, t, last) && i != -1 && FirstMatch(t, last, i)
    ensures var q := MatchAt(t, i);
            var b := BlockOf(t, i, q);
            Done(if i > last then ss + [Plain(t[last..i])] + [b] else ss + [b], t, q + 3)
  {
    var q := MatchAt(t, i);
    var b := BlockOf(t, i, q);
    BlockSource(t, i);
    BlockIsCanonical(t, i);
    if i > last {
      TextIsClosed(t, last, i);
      ExtendSources(ss, Plain(t[last..i]), t, last, i);
      ExtendSources(ss + [Plain(t[last..i])], b, t, i, q + 3);
      ExtendWithText(ss, t[last..i], b);
    } else {
      ExtendSources(ss, b, t, i, q + 3);
      ExtendWithBlock(ss, b);
    }
  }

  lemma ExtendWithBlock(ss: seq<Segment>, b: Segment)
    requires Canonical(ss, true) && CanonicalBlock(b)
    ensures Canonical(ss + [b], true)
  {
    forall k | 0 <= k < |ss| ensures Fits(ss + [b], k, true) {
      assert Fits(ss, k, true);
    }
  }

  lemma ExtendWithText(ss: seq<Segment>, text: string, b: Segment)
    requires Canonical(ss, true) && text != "" && ClosedBy(text) && CanonicalBlock(b)
    ensures Canonical(ss + [Plain(text)] + [b], true)
  {
    forall k | 0 <= k < |ss| ensures Fits(ss + [Plain(text)] + [b], k, true) {
      assert Fits(ss, k, true);
    }
  }

  lemma ExtendWithEnd(ss: seq<Segment>, text: string)
    requires Canonical(ss, true) && text != "" && !FencePair(text)
    ensures Canonical(ss + [Plain(text)], false)
  {
    forall k | 0 <= k < |ss| ensures Fits(ss + [Plain(text)], k, false) {
      assert Fits(ss, k, true);
    }
  }

  lemma CanonicalCloses(ss: seq<Segment>)
    requires Canonical(ss, true)
    ensures Canonical(ss, false)
  {
    forall k | 0 <= k < |ss| ensures Fits(ss, k, false) {
      assert Fits(ss, k, true);
    }
  }

  lemma EndExtends(ss: seq<Segment>, t: string, last: nat)
    requires Done(ss, t, last) && FirstMatch(t, last, -1)
    ensures var r := if last < |t| then ss + [Plain(t[last..])] else ss;
            Sources(r) == t && Canonical(r, false)
  {
    RestHasNoPair(t, last);
    assert t[last..] == t[last..|t|] && t[..|t|] == t;
    if last < |t| {
      ExtendSources(ss, Plain(t[last..]), t, last, |t|);
      ExtendWithEnd(ss, t[last..]);
    } else {
      CanonicalCloses(ss);
    }
  }

  lemma ExtendSources(ss: seq<Segment>, s: Segment, t: string, last: nat, next: nat)
    requires last <= next <= |t| && Sources(ss) == t[..last] && Source(s) == t[last..next]
    ensures Sources(ss + [s]) == t[..next]
  {
    SourcesOne(s);
    SourcesAppend(ss, [s]);
    Glue(t, 0, last, next);
  }
}
