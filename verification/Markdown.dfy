/** The block loop of `MarkdownView`, `markdown-view.tsx`. */
module Markdown {
  import opened Text

  /** What the loop puts out, keys aside; every text in it goes through `inline` once more. */
  datatype Block =
    | Pre(text: string)
    | Rule
    | Heading(level: nat, text: string)
    | Table(header: seq<string>, rows: seq<seq<string>>)
    | Quote(lines: seq<string>)
    | Bullets(items: seq<string>)
    | Numbers(items: seq<string>)
    | Paragraph(text: string)

  // ----- lines -----

  predicate IsBlank(line: string) { Trim(line) == "" }

  /** `line.trim().startsWith('```')` */
  predicate IsFence(line: string) { "```" <= Trim(line) }

  /** /^\s*([-*_])\1{2,}\s*$/ */
  predicate IsRule(line: string) {
    var t := Trim(line);
    |t| >= 3 && t[0] in {'-', '*', '_'} && forall k :: 0 <= k < |t| ==> t[k] == t[0]
  }

  function Leading(line: string, c: char): (n: nat)
    ensures n <= |line|
  {
    if line != "" && line[0] == c then 1 + Leading(line[1..], c) else 0
  }

  predicate IsLineEnd(c: char) { c == '\n' || c == '\r' || c == '\U{2028}' || c == '\U{2029}' }

  /** /^#{1,4}\s/ */
  predicate HasHashes(line: string) {
    var n := Leading(line, '#');
    1 <= n <= 4 && n < |line| && IsSpace(line[n])
  }

  /** The text behind the hashes and the space after them. */
  function HeadingText(line: string): string {
    TrimStart(line[Leading(line, '#')..])
  }

  /** /^(#{1,4})\s+(.*)$/, where the dot stops at a line end. */
  predicate IsHeading(line: string) {
    HasHashes(line) && forall c :: c in HeadingText(line) ==> !IsLineEnd(c)
  }

  predicate HasPipe(line: string) { '|' in line }

  /** /^\s*\|?[\s:|-]+\|?\s*$/ */
  predicate IsDelimiter(line: string) {
    line != "" && forall c :: c in line ==> IsSpace(c) || c == ':' || c == '|' || c == '-'
  }

  /** /^\s*>\s?/ */
  predicate IsQuote(line: string) { ">" <= TrimStart(line) }

  function QuoteText(line: string): string
    requires IsQuote(line)
  {
    var t := TrimStart(line)[1..];
    if t != "" && IsSpace(t[0]) then t[1..] else t
  }

  predicate Marked(t: string) { |t| >= 2 && (t[0] == '-' || t[0] == '*') && IsSpace(t[1]) }

  /** /^\s*[-*]\s+/ */
  predicate IsBullet(line: string) { Marked(TrimStart(line)) }

  function BulletText(line: string): string
    requires IsBullet(line)
  {
    TrimStart(TrimStart(line)[1..])
  }

  function Digits(t: string): (n: nat)
    ensures n <= |t|
  {
    if t != "" && '0' <= t[0] <= '9' then 1 + Digits(t[1..]) else 0
  }

  predicate Numbered(t: string) {
    var n := Digits(t);
    n >= 1 && n + 1 < |t| && t[n] == '.' && IsSpace(t[n + 1])
  }

  /** /^\s*\d+\.\s+/ */
  predicate IsNumber(line: string) { Numbered(TrimStart(line)) }

  function NumberText(line: string): string
    requires IsNumber(line)
  {
    var t := TrimStart(line);
    TrimStart(t[Digits(t) + 1..])
  }

  /** /^(#{1,4}\s|[-*]\s|>\s|\d+\.\s|```)/ */
  predicate StopsParagraph(line: string) {
    HasHashes(line) || Marked(line) || (|line| >= 2 && line[0] == '>' && IsSpace(line[1])) || Numbered(line)
    || "```" <= line
  }

  /** `row.replace(/^\||\|$/g, '').split('|').map((c) => c.trim())` */
  function Cells(row: string): seq<string> {
    var r := if "|" <= row then row[1..] else row;
    var s := if r != "" && r[|r| - 1] == '|' then r[..|r| - 1] else r;
    var pieces := Split(s, "|");
    seq(|pieces|, k requires 0 <= k < |pieces| => Trim(pieces[k]))
  }

  // ----- one turn of the loop -----

  /** How many lines from the front on satisfy `p`. */
  function RunLength(ls: seq<string>, p: string -> bool): (n: nat)
    ensures n <= |ls|
  {
    if ls != [] && p(ls[0]) then 1 + RunLength(ls[1..], p) else 0
  }

  /** `header row | --- | rows` */
  predicate TableAhead(ls: seq<string>)
    requires ls != []
  {
    HasPipe(ls[0]) && |ls| > 1 && IsDelimiter(ls[1]) && '-' in ls[1]
  }

  /** A paragraph does not go on to this line. */
  predicate EndsParagraph(ls: seq<string>) {
    ls == [] || IsBlank(ls[0]) || StopsParagraph(ls[0]) || IsRule(Trim(ls[0]))
    || (HasPipe(ls[0]) && |ls| > 1 && IsDelimiter(ls[1]))
  }

  /** How many lines from the front on do not end a run, each seen with the lines behind it. */
  function RunUntil(ls: seq<string>, ends: seq<string> -> bool): (n: nat)
    ensures n <= |ls|
  {
    if ls != [] && !ends(ls) then 1 + RunUntil(ls[1..], ends) else 0
  }

  function ParagraphLength(ls: seq<string>): (n: nat)
    ensures n <= |ls|
  {
    RunUntil(ls, EndsParagraph)
  }

  datatype Kind = FenceKind | RuleKind | HeadingKind | TableKind
                | QuoteKind | BulletKind | NumberKind | BlankKind | TextKind

  /** Which branch the loop takes. */
  function KindOf(ls: seq<string>): Kind
    requires ls != []
  {
    if IsFence(ls[0]) then FenceKind
    else if IsRule(ls[0]) then RuleKind
    else if IsHeading(ls[0]) then HeadingKind
    else if TableAhead(ls) then TableKind
    else if IsQuote(ls[0]) then QuoteKind
    else if IsBullet(ls[0]) then BulletKind
    else if IsNumber(ls[0]) then NumberKind
    else if IsBlank(ls[0]) then BlankKind
    else TextKind
  }

  predicate NotFence(line: string) { !IsFence(line) }

  predicate IsRow(line: string) { HasPipe(line) && !IsBlank(line) }

  /** How many lines the turn consumes; an unclosed fence consumes one more than there are. */
  function Taken(ls: seq<string>): (n: nat)
    requires ls != []
    ensures 1 <= n <= |ls| + 1
  {
    match KindOf(ls)
    case FenceKind => 1 + RunLength(ls[1..], NotFence) + 1
    case TableKind => 2 + RunLength(ls[2..], IsRow)
    case QuoteKind => AtLeastOne(RunLength(ls, IsQuote))
    case BulletKind => AtLeastOne(RunLength(ls, IsBullet))
    case NumberKind => AtLeastOne(RunLength(ls, IsNumber))
    case TextKind => AtLeastOne(ParagraphLength(ls))
    case _ => 1
  }

  function AtLeastOne(n: nat): nat { if n == 0 then 1 else n }

  /** The block the turn puts out, if any. */
  function BlockOf(ls: seq<string>): seq<Block>
    requires ls != []
  {
    match KindOf(ls)
    case FenceKind => [Pre(Join(ls[1..][..RunLength(ls[1..], NotFence)], "\n"))]
    case RuleKind => [Rule]
    case HeadingKind => [Heading(Leading(ls[0], '#'), HeadingText(ls[0]))]
    case TableKind => [Table(Cells(ls[0]), Rows(ls[2..][..RunLength(ls[2..], IsRow)]))]
    case QuoteKind => [Quote(Texts(ls[..RunLength(ls, IsQuote)], QuoteKind))]
    case BulletKind => [Bullets(Texts(ls[..RunLength(ls, IsBullet)], BulletKind))]
    case NumberKind => [Numbers(Texts(ls[..RunLength(ls, IsNumber)], NumberKind))]
    case BlankKind => []
    case TextKind =>
      var n := ParagraphLength(ls);
      if n > 0 then [Paragraph(Join(ls[..n], " "))] else []
  }

  function Rows(ls: seq<string>): seq<seq<string>> {
    seq(|ls|, k requires 0 <= k < |ls| => Cells(ls[k]))
  }

  /** A line of a quote or list without its mark. */
  function Unmarked(line: string, kind: Kind): string {
    if kind.QuoteKind? && IsQuote(line) then QuoteText(line)
    else if kind.BulletKind? && IsBullet(line) then BulletText(line)
    else if kind.NumberKind? && IsNumber(line) then NumberText(line)
    else line
  }

  function Texts(ls: seq<string>, kind: Kind): seq<string> {
    seq(|ls|, k requires 0 <= k < |ls| => Unmarked(ls[k], kind))
  }

  /** One turn of the loop: what it puts out and how many lines it consumes. */
  function TurnOf(ls: seq<string>): (t: (seq<Block>, nat))
    ensures 1 <= t.1 <= |ls| + 1
  {
    if ls == [] then ([], 1) else (BlockOf(ls), Taken(ls))
  }

  type Turning = seq<string> -> (seq<Block>, nat)

  /** What is left after a turn. */
  function Left(turn: Turning, ls: seq<string>): (r: seq<string>)
    ensures ls != [] ==> |r| < |ls|
  {
    var n := AtLeastOne(turn(ls).1);
    if n >= |ls| then [] else ls[n..]
  }

  /** Turn after turn, until no line is left. */
  function BlocksBy(turn: Turning, ls: seq<string>): seq<Block>
    decreases |ls|
  {
    if ls == [] then [] else turn(ls).0 + BlocksBy(turn, Left(turn, ls))
  }

  /** Some turn runs past the last line. */
  predicate OverrunsBy(turn: Turning, ls: seq<string>)
    decreases |ls|
  {
    ls != [] && (turn(ls).1 > |ls| || OverrunsBy(turn, Left(turn, ls)))
  }

  function Blocks(ls: seq<string>): seq<Block> {
    BlocksBy(TurnOf, ls)
  }

  /** The lines end inside a fence that is never closed: only such a turn runs past the end. */
  predicate EndsOpen(ls: seq<string>) {
    OverrunsBy(TurnOf, ls)
  }

  // ----- the loop -----

  /**
   The loop of `MarkdownView`. It consumes every line exactly once and stops behind the last line, or one
   further exactly when the last fence is never closed.
   */
  method Render(lines: seq<string>) returns (out: seq<Block>, i: nat)
    ensures out == Blocks(lines)
    ensures i == if EndsOpen(lines) then |lines| + 1 else |lines|
  {
    out, i := [], 0;
    RenderedStart(TurnOf, lines);
    while i < |lines|
      invariant Rendered(TurnOf, lines, i, out)
      decreases |lines| - i
    {
      out, i := PutOut(lines, i, out);
    }
    RenderedEnd(TurnOf, lines, i, out);
  }

  method PutOut(lines: seq<string>, i: nat, out: seq<Block>) returns (out': seq<Block>, next: nat)
    requires i < |lines| && Rendered(TurnOf, lines, i, out)
    ensures next > i && Rendered(TurnOf, lines, next, out')
  {
    var block: seq<Block>;
    block, next := Turn(lines, i);
    out' := out + block;
    RenderedStep(TurnOf, lines, i, out, block, next);
  }

  /** What the turns up to line `i` have put out; a fence left open leads one line past the end. */
  ghost predicate Rendered(turn: Turning, lines: seq<string>, i: nat, out: seq<Block>) {
    && (i <= |lines| || (i == |lines| + 1 && OverrunsBy(turn, lines)))
    && out + BlocksBy(turn, From(lines, i)) == BlocksBy(turn, lines)
    && (i <= |lines| ==> (OverrunsBy(turn, lines) <==> OverrunsBy(turn, From(lines, i))))
  }

  lemma RenderedStart(turn: Turning, lines: seq<string>)
    ensures Rendered(turn, lines, 0, [])
  {
    assert From(lines, 0) == lines;
    assert [] + BlocksBy(turn, lines) == BlocksBy(turn, lines);
  }

  lemma RenderedStep(turn: Turning, lines: seq<string>, i: nat, out: seq<Block>, block: seq<Block>, next: nat)
    requires i < |lines| && Rendered(turn, lines, i, out)
    requires i < next <= |lines| + 1 && turn(lines[i..]) == (block, next - i)
    ensures Rendered(turn, lines, next, out + block)
  {
    LoopStep(turn, lines, i);
    AppendStep(out, block, BlocksBy(turn, From(lines, next)));
    assert OverrunsBy(turn, lines) <==> next > |lines| || OverrunsBy(turn, From(lines, next));
  }

  lemma RenderedEnd(turn: Turning, lines: seq<string>, i: nat, out: seq<Block>)
    requires i >= |lines| && Rendered(turn, lines, i, out)
    ensures out == BlocksBy(turn, lines) && i == if OverrunsBy(turn, lines) then |lines| + 1 else |lines|
  {
    assert From(lines, i) == [];
  }

  lemma LoopStep(turn: Turning, lines: seq<string>, i: nat)
    requires i < |lines| && turn(lines[i..]).1 >= 1
    ensures var t := turn(lines[i..]);
            && BlocksBy(turn, From(lines, i)) == t.0 + BlocksBy(turn, From(lines, i + t.1))
            && (OverrunsBy(turn, From(lines, i)) <==> i + t.1 > |lines| || OverrunsBy(turn, From(lines, i + t.1)))
  {
    var t := turn(lines[i..]);
    assert Left(turn, lines[i..]) == From(lines, i + t.1);
  }

  lemma AppendStep(a: seq<Block>, b: seq<Block>, c: seq<Block>)
    ensures a + (b + c) == (a + b) + c
  {
  }

  /** One turn: the block it puts out, if any, and where the next one begins. */
  method Turn(lines: seq<string>, i: nat) returns (block: seq<Block>, next: nat)
    requires i < |lines|
    ensures TurnOf(lines[i..]) == (block, next - i) && i < next <= |lines| + 1
  {
    match KindOf(lines[i..])
    case RuleKind =>
      return [Rule], i + 1;
    case HeadingKind =>
      return [Heading(Leading(lines[i], '#'), HeadingText(lines[i]))], i + 1;
    case BlankKind =>
      return [], i + 1;
    case TextKind =>
      var k := GatherUntil(lines, i, EndsParagraph);
      assert lines[i..k] == lines[i..][..k - i];
      if k > i {
        return [Paragraph(Join(lines[i..k], " "))], k;
      }
      return [], i + 1;
    case FenceKind =>
      block, next := OpenedTurn(lines, i);
    case TableKind =>
      block, next := OpenedTurn(lines, i);
    case _ =>
      block, next := ListTurn(lines, i);
  }

  /** The two kinds of blocks that are opened by lines other than those they gather. */
  method OpenedTurn(lines: seq<string>, i: nat) returns (block: seq<Block>, next: nat)
    requires i < |lines| && KindOf(lines[i..]) in {FenceKind, TableKind}
    ensures block == BlockOf(lines[i..]) && next == i + Taken(lines[i..])
  {
    var k: nat;
    if KindOf(lines[i..]) == FenceKind {
      k := Gather(lines, i + 1, NotFence);
      Window(lines, i, 1, k);
      block, next := [Pre(Join(lines[i + 1..k], "\n"))], k + 1;
    } else {
      k := Gather(lines, i + 2, IsRow);
      Window(lines, i, 2, k);
      block, next := [Table(Cells(lines[i]), Rows(lines[i + 2..k]))], k;
    }
  }

  lemma Window(lines: seq<string>, i: nat, a: nat, k: nat)
    requires i + a <= k <= |lines|
    ensures lines[i..][a..] == lines[i + a..] && lines[i..][a..][..k - i - a] == lines[i + a..k]
  {
  }

  /** The three kinds of blocks that gather lines with a mark of their own. */
  method ListTurn(lines: seq<string>, i: nat) returns (block: seq<Block>, next: nat)
    requires i < |lines| && KindOf(lines[i..]) in {QuoteKind, BulletKind, NumberKind}
    ensures block == BlockOf(lines[i..]) && next == i + Taken(lines[i..])
  {
    ghost var rest := lines[i..];
    var k: nat;
    if KindOf(lines[i..]) == QuoteKind {
      k := Gather(lines, i, IsQuote);
      block := [Quote(Texts(lines[i..k], QuoteKind))];
    } else if KindOf(lines[i..]) == BulletKind {
      k := Gather(lines, i, IsBullet);
      block := [Bullets(Texts(lines[i..k], BulletKind))];
    } else {
      k := Gather(lines, i, IsNumber);
      block := [Numbers(Texts(lines[i..k], NumberKind))];
    }
    assert lines[i..k] == rest[..k - i];
    next := k;
  }

  function From(lines: seq<string>, i: nat): seq<string> {
    if i <= |lines| then lines[i..] else []
  }

  /** The inner loops: on to the first line that does not satisfy `p`. */
  method Gather(lines: seq<string>, i: nat, p: string -> bool) returns (k: nat)
    requires i <= |lines|
    ensures i <= k <= |lines| && k == i + RunLength(lines[i..], p)
  {
    k := i;
    while k < |lines| && p(lines[k])
      invariant i <= k <= |lines|
      invariant i + RunLength(lines[i..], p) == k + RunLength(lines[k..], p)
    {
      assert lines[k..][1..] == lines[k + 1..];
      k := k + 1;
    }
  }

  method GatherUntil(lines: seq<string>, i: nat, ends: seq<string> -> bool) returns (k: nat)
    requires i <= |lines|
    ensures i <= k <= |lines| && k == i + RunUntil(lines[i..], ends)
  {
    k := i;
    while k < |lines| && !ends(lines[k..])
      invariant i <= k <= |lines|
      invariant i + RunUntil(lines[i..], ends) == k + RunUntil(lines[k..], ends)
    {
      assert lines[k..][1..] == lines[k + 1..];
      k := k + 1;
    }
  }

  // ----- composition at an empty line -----

  lemma EmptyLine()
    ensures IsBlank("") && !IsFence("") && !IsDelimiter("") && !IsRow("")
            && !IsQuote("") && !IsBullet("") && !IsNumber("")
  {
  }

  lemma {:induction false} RunStable(x: seq<string>, t: seq<string>, p: string -> bool)
    requires RunLength(x, p) < |x| || (t != [] && !p(t[0]))
    ensures RunLength(x + t, p) == RunLength(x, p)
    decreases |x|
  {
    if x == [] {
      assert x + t == t;
    } else {
      assert (x + t)[0] == x[0] && (x + t)[1..] == x[1..] + t;
      if p(x[0]) {
        RunStable(x[1..], t, p);
      }
    }
  }

  lemma {:induction false} RunUntilStable(x: seq<string>, t: seq<string>, ends: seq<string> -> bool)
    requires t != [] && ends(t) && forall y :: y != [] ==> (ends(y + t) <==> ends(y))
    ensures RunUntil(x + t, ends) == RunUntil(x, ends)
    decreases |x|
  {
    if x == [] {
      assert x + t == t;
    } else {
      assert (x + t)[1..] == x[1..] + t;
      if !ends(x) {
        RunUntilStable(x[1..], t, ends);
      }
    }
  }

  lemma ParagraphStable(x: seq<string>, t: seq<string>)
    requires t != [] && t[0] == ""
    ensures ParagraphLength(x + t) == ParagraphLength(x)
  {
    EmptyLine();
    forall y: seq<string> | y != [] ensures EndsParagraph(y + t) <==> EndsParagraph(y) {
      SameLookahead(y, t);
    }
    RunUntilStable(x, t, EndsParagraph);
  }

  /** The line after an empty one is no delimiter, so looking ahead across the end changes nothing. */
  lemma SameLookahead(y: seq<string>, t: seq<string>)
    requires y != [] && t != [] && t[0] == ""
    ensures (y + t)[0] == y[0]
    ensures |y| > 1 ==> (y + t)[1] == y[1]
    ensures |y| == 1 ==> (y + t)[1] == "" && !IsDelimiter("")
    ensures EndsParagraph(y + t) <==> EndsParagraph(y)
    ensures TableAhead(y + t) <==> TableAhead(y)
  {
  }

  lemma KindStable(a: seq<string>, t: seq<string>)
    requires a != [] && t != [] && t[0] == ""
    ensures KindOf(a + t) == KindOf(a)
  {
    SameLookahead(a, t);
  }

  /** A turn that ends within `a` is the same whether or not an empty line and more follow. */
  lemma TurnStable(a: seq<string>, t: seq<string>)
    requires a != [] && t != [] && t[0] == "" && Taken(a) <= |a|
    ensures TurnOf(a + t) == TurnOf(a)
  {
    EmptyLine();
    KindStable(a, t);
    var e := a + t;
    assert e[0] == a[0];
    match KindOf(a)
    case FenceKind =>
      assert e[1..] == a[1..] + t;
      RunStable(a[1..], t, NotFence);
      SamePrefix(a[1..], t, RunLength(a[1..], NotFence));
    case TableKind =>
      assert e[2..] == a[2..] + t;
      RunStable(a[2..], t, IsRow);
      SamePrefix(a[2..], t, RunLength(a[2..], IsRow));
    case QuoteKind => RunStable(a, t, IsQuote); SamePrefix(a, t, RunLength(a, IsQuote));
    case BulletKind => RunStable(a, t, IsBullet); SamePrefix(a, t, RunLength(a, IsBullet));
    case NumberKind => RunStable(a, t, IsNumber); SamePrefix(a, t, RunLength(a, IsNumber));
    case TextKind => ParagraphStable(a, t); SamePrefix(a, t, ParagraphLength(a));
    case _ =>
  }

  lemma SamePrefix(a: seq<string>, t: seq<string>, n: nat)
    requires n <= |a|
    ensures (a + t)[..n] == a[..n]
  {
  }

  /** All that composition needs to know of a turn. */
  ghost predicate Composable(turn: Turning) {
    && (forall b :: turn([""] + b) == ([], 1))
    && (forall a, t :: a != [] && t != [] && t[0] == "" && turn(a).1 <= |a| ==> turn(a + t) == turn(a))
    && (forall a :: turn(a).1 >= 1)
  }

  lemma TurnsAreComposable()
    ensures Composable(TurnOf)
  {
    forall b ensures TurnOf([""] + b) == ([], 1) {
      EmptyLine();
      assert ([""] + b)[0] == "";
    }
    forall a, t | a != [] && t != [] && t[0] == "" && TurnOf(a).1 <= |a| ensures TurnOf(a + t) == TurnOf(a) {
      TurnStable(a, t);
    }
  }

  lemma LeftStable(turn: Turning, a: seq<string>, t: seq<string>)
    requires a != [] && t != [] && 1 <= turn(a).1 <= |a| && turn(a + t) == turn(a)
    ensures Left(turn, a + t) == Left(turn, a) + t
  {
    var n := turn(a).1;
    assert (a + t)[n..] == a[n..] + t;
  }

  lemma {:induction false} ComposeBy(turn: Turning, a: seq<string>, b: seq<string>)
    requires Composable(turn) && !OverrunsBy(turn, a)
    ensures BlocksBy(turn, a + ([""] + b)) == BlocksBy(turn, a) + BlocksBy(turn, b)
    decreases |a|
  {
    var t := [""] + b;
    if a == [] {
      assert a + t == t && t[1..] == b;
      assert Left(turn, t) == b;
    } else {
      LeftStable(turn, a, t);
      ComposeBy(turn, Left(turn, a), b);
      AppendStep(turn(a).0, BlocksBy(turn, Left(turn, a)), BlocksBy(turn, b));
    }
  }

  /** Parsing is compositional at an empty line, unless a fence is left open before it. */
  lemma BlocksCompose(a: seq<string>, b: seq<string>)
    requires !EndsOpen(a)
    ensures Blocks(a + [""] + b) == Blocks(a) + Blocks(b)
  {
    TurnsAreComposable();
    ComposeBy(TurnOf, a, b);
    Regroup(a, [""], b);
  }

  /** Lines without a fence vanish in a fence left open: no block is added. */
  lemma {:induction false} OpenSwallows(turn: Turning, a: seq<string>, t: seq<string>)
    requires Composable(turn) && OverrunsBy(turn, a) && t != [] && t[0] == ""
    requires forall x :: x != [] && turn(x).1 > |x| ==> turn(x + t).1 > |x + t| && |turn(x + t).0| == |turn(x).0|
    ensures |BlocksBy(turn, a + t)| == |BlocksBy(turn, a)|
    decreases |a|
  {
    if turn(a).1 > |a| {
      assert Left(turn, a) == [] && Left(turn, a + t) == [];
    } else {
      LeftStable(turn, a, t);
      OpenSwallows(turn, Left(turn, a), t);
    }
  }

  lemma FenceSwallows(a: seq<string>, t: seq<string>)
    requires a != [] && Taken(a) > |a| && t != [] && t[0] == "" && forall l :: l in t ==> !IsFence(l)
    ensures Taken(a + t) > |a + t| && |BlockOf(a + t)| == |BlockOf(a)|
  {
    KindStable(a, t);
    assert KindOf(a) == FenceKind;
    assert (a + t)[1..] == a[1..] + t;
    RunAll(a[1..], t);
  }

  lemma {:induction false} RunAll(x: seq<string>, t: seq<string>)
    requires RunLength(x, NotFence) == |x| && forall l :: l in t ==> !IsFence(l)
    ensures RunLength(x + t, NotFence) == |x + t|
    decreases |x| + |t|
  {
    if x != [] {
      assert (x + t)[0] == x[0] && (x + t)[1..] == x[1..] + t;
      RunAll(x[1..], t);
    } else if t != [] {
      assert x + t == t && t[0] in t;
      RunAll([], t[1..]);
      assert [] + t[1..] == t[1..];
    }
  }

  /** An open fence is the only obstacle: what follows an empty line is parsed on its own exactly without one. */
  lemma ComposesExactly(a: seq<string>)
    ensures (forall b :: Blocks(a + [""] + b) == Blocks(a) + Blocks(b)) <==> !EndsOpen(a)
  {
    if EndsOpen(a) {
      SwallowedRule(a);
      assert Blocks(a + [""] + ["---"]) != Blocks(a) + Blocks(["---"]);
    } else {
      forall b ensures Blocks(a + [""] + b) == Blocks(a) + Blocks(b) {
        BlocksCompose(a, b);
      }
    }
  }

  lemma SwallowedRule(a: seq<string>)
    requires EndsOpen(a)
    ensures |Blocks(a + [""] + ["---"])| == |Blocks(a)| && |Blocks(["---"])| == 1
  {
    var t := ["", "---"];
    OneRule();
    EmptyLine();
    TurnsAreComposable();
    forall x | x != [] && TurnOf(x).1 > |x|
      ensures TurnOf(x + t).1 > |x + t| && |TurnOf(x + t).0| == |TurnOf(x).0|
    {
      FenceSwallows(x, t);
    }
    OpenSwallows(TurnOf, a, t);
    assert a + [""] + ["---"] == a + t;
  }

  lemma OneRule()
    ensures |Blocks(["---"])| == 1 && !IsFence("---")
  {
    var l := "---";
    assert Trim(l) == l;
    assert l[0] == '-';
    assert KindOf([l]) == RuleKind;
    assert TurnOf([l]) == ([Rule], 1);
    assert Left(TurnOf, [l]) == [];
  }

  // ----- whole texts -----

  /** `md.replace(/\r\n/g, '\n')` */
  function Unified(md: string): string {
    if md == "" then ""
    else if |md| >= 2 && md[0] == '\r' && md[1] == '\n' then ['\n'] + Unified(md[2..])
    else [md[0]] + Unified(md[1..])
  }

  /** `(md || '').replace(/\r\n/g, '\n').split('\n')` */
  function ToLines(md: string): seq<string> {
    Split(Unified(md), "\n")
  }

  const GAP := "\n\n"

  /** No line break is torn where `a` ends and `b` begins. */
  ghost predicate CleanSeam(a: string, b: string) {
    a != "" && b != "" && b[0] == '\n' ==> a[|a| - 1] != '\r'
  }

  lemma {:induction false} UnifiedAppend(a: string, b: string)
    requires CleanSeam(a, b)
    ensures Unified(a + b) == Unified(a) + Unified(b)
    decreases |a|
  {
    if a == "" {
      assert a + b == b;
    } else if |a| >= 2 && a[0] == '\r' && a[1] == '\n' {
      assert (a + b)[2..] == a[2..] + b;
      UnifiedAppend(a[2..], b);
      Regroup(['\n'], Unified(a[2..]), Unified(b));
    } else {
      assert (a + b)[1..] == a[1..] + b;
      UnifiedAppend(a[1..], b);
      Regroup([a[0]], Unified(a[1..]), Unified(b));
    }
  }

  lemma LinesOfTwo(a: string, b: string)
    requires a == "" || a[|a| - 1] != '\r'
    ensures ToLines(a + GAP + b) == ToLines(a) + [""] + ToLines(b)
  {
    UnifiedAppend(a, GAP);
    assert (a + GAP)[|a + GAP| - 1] == '\n';
    UnifiedAppend(a + GAP, b);
    assert Unified(GAP) == ['\n', '\n'];
    SplitAtPair(Unified(a), Unified(b), '\n');
  }

  /**
   Two documents joined by an empty line render as one after the other, unless the first leaves a fence
   open or ends in a bare carriage return.
   */
  lemma DocumentsCompose(a: string, b: string)
    requires a == "" || a[|a| - 1] != '\r'
    requires !EndsOpen(ToLines(a))
    ensures Blocks(ToLines(a + GAP + b)) == Blocks(ToLines(a)) + Blocks(ToLines(b))
  {
    LinesOfTwo(a, b);
    BlocksCompose(ToLines(a), ToLines(b));
  }

  // ----- lines that leave no trace -----

  lemma {:induction false} TrimEndKeeps(s: string, i: nat)
    requires i < |s| && !IsSpace(s[i])
    ensures i < |TrimEnd(s)|
  {
    if IsSpace(s[|s| - 1]) {
      TrimEndKeeps(s[..|s| - 1], i);
    }
  }

  /** A mark at the very start of a line is also the mark of its own kind of block. */
  lemma StopsAreMarks(line: string)
    requires StopsParagraph(line) || IsRule(Trim(line))
    ensures HasHashes(line) || IsBullet(line) || IsQuote(line) || IsNumber(line) || IsFence(line) || IsRule(line)
  {
    TrimStartFacts(line);
    var t := TrimStart(line);
    TrimEndFacts(t);
    if "```" <= line {
      assert t == line;
      TrimEndKeeps(t, 2);
      assert Trim(line)[..3] == line[..3] == "```";
    }
    if IsRule(Trim(line)) {
      TrimTwice(line);
    }
  }

  lemma TrimTwice(line: string)
    ensures Trim(Trim(line)) == Trim(line)
  {
    var t := TrimStart(line);
    TrimStartFacts(line);
    TrimEndFacts(t);
    TrimStartFacts(Trim(line));
    TrimEndFacts(Trim(line));
    if Trim(line) != "" {
      assert Trim(line)[0] == t[0];
    }
  }

  /**
   What the loop drops: a line that is not blank puts out no block exactly when it carries a pipe, is no
   header of a table and stands before a line of spaces, colons and pipes without a dash, or when it begins
   like a heading but holds a bare line end, and no other kind of block claims it.
   */
  lemma DroppedExactly(ls: seq<string>)
    requires ls != [] && !IsBlank(ls[0])
    ensures BlockOf(ls) == [] <==>
            && !IsFence(ls[0]) && !IsRule(ls[0]) && !IsQuote(ls[0]) && !IsBullet(ls[0]) && !IsNumber(ls[0])
            && !IsHeading(ls[0]) && !TableAhead(ls)
            && ((HasPipe(ls[0]) && |ls| > 1 && IsDelimiter(ls[1]) && '-' !in ls[1]) || HasHashes(ls[0]))
  {
    if EndsParagraph(ls) && (StopsParagraph(ls[0]) || IsRule(Trim(ls[0]))) {
      StopsAreMarks(ls[0]);
    }
  }

  /** A pipe line before a line of pipes and colons without a dash is lost. */
  lemma PipeLineIsDropped()
    ensures BlockOf(["a|b", ":|:"]) == []
  {
    var ls := ["a|b", ":|:"];
    assert ls[0][0] == 'a' && ls[0][1] == '|' && |ls[0]| == 3;
    assert TrimStart(ls[0]) == ls[0] && TrimEnd(ls[0]) == ls[0];
    DroppedExactly(ls);
  }

  // ----- which fences stay open -----

  lemma {:induction false} RunIsWhole(ls: seq<string>)
    ensures RunLength(ls, NotFence) == |ls| <==> forall l :: l in ls ==> !IsFence(l)
  {
    if ls != [] {
      RunIsWhole(ls[1..]);
      assert ls == [ls[0]] + ls[1..];
    }
  }

  /** A turn runs past the last line exactly if it begins at a fence with no fence line behind it. */
  lemma OverrunExactly(ls: seq<string>)
    requires ls != []
    ensures Taken(ls) > |ls| <==> IsFence(ls[0]) && forall l :: l in ls[1..] ==> !IsFence(l)
  {
    RunIsWhole(ls[1..]);
  }

  /** A turn begins at line `k`. */
  predicate BeginsBy(turn: Turning, ls: seq<string>, k: nat)
    decreases |ls|
  {
    var n := AtLeastOne(turn(ls).1);
    ls != [] && (k == 0 || (n <= k && BeginsBy(turn, Left(turn, ls), k - n)))
  }

  lemma {:induction false} OverrunBegins(turn: Turning, ls: seq<string>) returns (k: nat)
    requires OverrunsBy(turn, ls)
    ensures k < |ls| && BeginsBy(turn, ls, k) && turn(ls[k..]).1 > |ls[k..]|
    decreases |ls|
  {
    if turn(ls).1 > |ls| {
      k := 0;
      assert ls[0..] == ls;
    } else {
      var n := AtLeastOne(turn(ls).1);
      k := OverrunBegins(turn, Left(turn, ls));
      assert ls[n..][k..] == ls[n + k..];
      k := n + k;
    }
  }

  lemma {:induction false} BeginningOverruns(turn: Turning, ls: seq<string>, k: nat)
    requires k < |ls| && BeginsBy(turn, ls, k) && turn(ls[k..]).1 > |ls[k..]|
    ensures OverrunsBy(turn, ls)
    decreases |ls|
  {
    if k == 0 {
      assert ls[0..] == ls;
    } else {
      var n := AtLeastOne(turn(ls).1);
      assert ls[n..][k - n..] == ls[k..];
      BeginningOverruns(turn, Left(turn, ls), k - n);
    }
  }

  /** A turn of the loop begins at the fence line `k`, and no line behind it is a fence. */
  ghost predicate OpenFence(ls: seq<string>, k: nat) {
    k < |ls| && BeginsBy(TurnOf, ls, k) && IsFence(ls[k]) && forall l :: l in ls[k + 1..] ==> !IsFence(l)
  }

  /** A document ends open exactly if some turn begins at a fence line that no other fence line follows. */
  lemma EndsOpenExactly(ls: seq<string>)
    ensures EndsOpen(ls) <==> exists k: nat :: OpenFence(ls, k)
  {
    if EndsOpen(ls) {
      var k := OverrunBegins(TurnOf, ls);
      OverrunExactly(ls[k..]);
      assert ls[k..][1..] == ls[k + 1..];
      assert OpenFence(ls, k);
    }
    if k: nat :| OpenFence(ls, k) {
      OverrunExactly(ls[k..]);
      assert ls[k..][1..] == ls[k + 1..];
      BeginningOverruns(TurnOf, ls, k);
    }
  }
}
