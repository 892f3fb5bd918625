/** Blocks written down as lines, and read back by the block loop as what they were. */
module MarkdownPrint {
  import opened Markdown
  import opened Text

  /** What a writer puts down: each kind of block with its marks. */
  datatype Piece =
    | Code(open: string, lines: seq<string>, close: string)
    | Line(before: string, c: char, n: nat, after: string)
    | Title(level: nat, gap: string, text: string)
    | Grid(header: seq<string>, delimiter: string, rows: seq<seq<string>>)
    | Quoted(marks: seq<string>, lines: seq<string>)
    | Dashed(marks: seq<string>, items: seq<string>)
    | Counted(marks: seq<string>, items: seq<string>)
    | Prose(lines: seq<string>)

  /** What it means by that. */
  function Meaning(p: Piece): Block {
    match p
    case Code(_, lines, _) => Pre(Join(lines, "\n"))
    case Line(_, _, _, _) => Rule
    case Title(level, _, text) => Heading(level, text)
    case Grid(header, _, rows) => Table(header, rows)
    case Quoted(_, lines) => Quote(lines)
    case Dashed(_, items) => Bullets(items)
    case Counted(_, items) => Numbers(items)
    case Prose(lines) => Paragraph(Join(lines, " "))
  }

  function Repeat(c: char, n: nat): (s: string)
    ensures |s| == n && forall k :: 0 <= k < n ==> s[k] == c
  {
    seq(n, _ => c)
  }

  /** Each item behind its own mark. */
  function Each(marks: seq<string>, items: seq<string>): (ls: seq<string>)
    ensures |ls| == |items| && forall k :: 0 <= k < |items| && k < |marks| ==> ls[k] == marks[k] + items[k]
  {
    seq(|items|, k requires 0 <= k < |items| => (if k < |marks| then marks[k] else "") + items[k])
  }

  function Padded(cells: seq<string>): seq<string> {
    seq(|cells|, k requires 0 <= k < |cells| => " " + cells[k] + " ")
  }

  function PrintRow(cells: seq<string>): string { "|" + Join(Padded(cells), "|") + "|" }

  function PrintRows(rows: seq<seq<string>>): seq<string> {
    seq(|rows|, k requires 0 <= k < |rows| => PrintRow(rows[k]))
  }

  function Print(p: Piece): seq<string> {
    match p
    case Code(open, lines, close) => [open] + lines + [close]
    case Line(before, c, n, after) => [before + Repeat(c, n) + after]
    case Title(level, gap, text) => [Repeat('#', level) + (gap + text)]
    case Grid(header, delimiter, rows) => [PrintRow(header), delimiter] + PrintRows(rows)
    case Quoted(marks, lines) => Each(marks, lines)
    case Dashed(marks, items) => Each(marks, items)
    case Counted(marks, items) => Each(marks, items)
    case Prose(lines) => lines
  }

  // ----- what can be written down -----

  ghost predicate Blank(s: string) { forall c :: c in s ==> IsSpace(c) }

  ghost predicate Gap(s: string) { s != "" && Blank(s) }

  predicate StartsSharp(s: string) { s != "" ==> !IsSpace(s[0]) }

  predicate IsCell(s: string) { (s != "" ==> !IsSpace(s[0]) && !IsSpace(s[|s| - 1])) && '|' !in s }

  predicate AreCells(cells: seq<string>) { cells != [] && forall c :: c in cells ==> IsCell(c) }

  /** Nothing but white space, colons, pipes and dashes. */
  ghost predicate OnlyDelimits(s: string) {
    s != "" && forall c :: c in s ==> IsSpace(c) || c == ':' || c == '|' || c == '-'
  }

  /** A dash or a star, with white space before it and behind. */
  ghost predicate DashMark(m: string) { exists n: nat :: DashAt(m, n) }

  ghost predicate DashAt(m: string, n: nat) {
    n < |m| && Blank(m[..n]) && (m[n] == '-' || m[n] == '*') && Gap(m[n + 1..])
  }

  /** Digits and a dot, with white space before them and behind. */
  ghost predicate CountMark(m: string) { exists n: nat, k: nat :: CountAt(m, n, k) }

  ghost predicate CountAt(m: string, n: nat, k: nat) {
    n < k < |m| && Blank(m[..n]) && AllDigits(m[n..k]) && m[k] == '.' && Gap(m[k + 1..])
  }

  predicate AllDigits(ds: string) { forall j :: 0 <= j < |ds| ==> '0' <= ds[j] <= '9' }

  /** An angle bracket, with white space before it and a space, or nothing, behind. */
  ghost predicate QuoteMark(m: string, line: string) { exists n: nat :: QuoteAt(m, n, line) }

  ghost predicate QuoteAt(m: string, n: nat, line: string) {
    && n < |m| && Blank(m[..n]) && m[n] == '>'
    && (if |m| == n + 1 then StartsSharp(line) else |m| == n + 2 && IsSpace(m[n + 1]))
  }

  /** A line of prose: it begins with none of the characters that mark something else. */
  predicate IsProse(s: string) {
    s != "" && !IsSpace(s[0]) && s[0] !in {'#', '-', '*', '_', '>', '`'} && !('0' <= s[0] <= '9')
  }

  /** The first item holds a pipe, and the line of the second could be what follows the head of a table. */
  ghost predicate LooksLikeTable(marks: seq<string>, items: seq<string>)
    requires |marks| == |items|
  {
    |items| > 1 && '|' in items[0] && OnlyDelimits(marks[1] + items[1])
  }

  ghost predicate Printable(p: Piece) {
    match p
    case Code(open, lines, close) =>
      "```" <= Trim(open) && "```" <= Trim(close) && forall l :: l in lines ==> !("```" <= Trim(l))
    case Line(before, c, n, after) => Blank(before) && Blank(after) && c in {'-', '*', '_'} && n >= 3
    case Title(level, gap, text) =>
      1 <= level <= 4 && Gap(gap) && StartsSharp(text) && forall c :: c in text ==> !IsLineEnd(c)
    case Grid(header, delimiter, rows) =>
      AreCells(header) && OnlyDelimits(delimiter) && '-' in delimiter && forall r :: r in rows ==> AreCells(r)
    case Quoted(marks, lines) =>
      lines != [] && |marks| == |lines| && forall k :: 0 <= k < |lines| ==> QuoteMark(marks[k], lines[k])
    case Dashed(marks, items) =>
      && items != [] && |marks| == |items|
      && (forall k :: 0 <= k < |items| ==> DashMark(marks[k]) && StartsSharp(items[k]))
      && !LooksLikeTable(marks, items)
    case Counted(marks, items) =>
      && items != [] && |marks| == |items|
      && forall k :: 0 <= k < |items| ==> CountMark(marks[k]) && StartsSharp(items[k])
    case Prose(lines) =>
      && lines != [] && (forall l :: l in lines ==> IsProse(l))
      && forall k :: 0 <= k < |lines| - 1 ==> !('|' in lines[k] && OnlyDelimits(lines[k + 1]))
  }

  /** The loop takes all lines in one turn and puts out what was meant. */
  ghost predicate ReadsBack(ls: seq<string>, b: Block) {
    ls != [] && TurnOf(ls) == ([b], |ls|)
  }

  // ----- ends of lines -----

  /** A line that begins with a character other than white space still begins with it when trimmed. */
  lemma Sharp(s: string)
    requires s != "" && !IsSpace(s[0])
    ensures TrimStart(s) == s && Trim(s) != "" && Trim(s)[0] == s[0] && Trim(s) <= s
  {
    TrimEndKeeps(s, 0);
    TrimEndFacts(s);
  }

  lemma {:induction false} SkipsBlank(a: string, s: string)
    requires Blank(a)
    ensures TrimStart(a + s) == TrimStart(s) && Trim(a + s) == Trim(s)
  {
    if a == "" {
      assert a + s == s;
    } else {
      assert a[0] in a && (a + s)[0] == a[0] && (a + s)[1..] == a[1..] + s;
      SkipsBlank(a[1..], s);
    }
  }

  lemma {:induction false} CutsBlank(s: string, b: string)
    requires Blank(b) && (s != "" ==> !IsSpace(s[|s| - 1]))
    ensures TrimEnd(s + b) == s
    decreases |b|
  {
    if b == "" {
      assert s + b == s;
    } else {
      var n := |b| - 1;
      assert b[n] in b && (s + b)[|s + b| - 1] == b[n] && (s + b)[..|s + b| - 1] == s + b[..n];
      CutsBlank(s, b[..n]);
    }
  }

  lemma SkipsGap(gap: string, text: string)
    requires Blank(gap) && StartsSharp(text)
    ensures TrimStart(gap + text) == text
  {
    SkipsBlank(gap, text);
    TrimStartFacts(text);
  }

  lemma {:induction false} RunOver(ls: seq<string>, p: string -> bool)
    requires forall l :: l in ls ==> p(l)
    ensures RunLength(ls, p) == |ls|
  {
    if ls != [] {
      assert ls[0] in ls;
      RunOver(ls[1..], p);
    }
  }

  lemma {:induction false} RunTo(ls: seq<string>, last: string, p: string -> bool)
    requires (forall l :: l in ls ==> p(l)) && !p(last)
    ensures RunLength(ls + [last], p) == |ls|
  {
    if ls == [] {
      assert ls + [last] == [last];
    } else {
      assert ls[0] in ls && (ls + [last])[1..] == ls[1..] + [last];
      RunTo(ls[1..], last, p);
    }
  }

  // ----- code, rules, headings -----

  lemma CodeReadsBack(open: string, lines: seq<string>, close: string)
    requires Printable(Code(open, lines, close))
    ensures ReadsBack([open] + lines + [close], Pre(Join(lines, "\n")))
  {
    var ls := [open] + lines + [close];
    assert ls[0] == open && ls[1..] == lines + [close];
    RunTo(lines, close, NotFence);
    assert (lines + [close])[..|lines|] == lines;
  }

  lemma LineReadsBack(before: string, c: char, n: nat, after: string)
    requires Printable(Line(before, c, n, after))
    ensures ReadsBack([before + Repeat(c, n) + after], Rule)
  {
    var mid := Repeat(c, n);
    var line := before + mid + after;
    assert line == before + (mid + after) && (mid + after)[0] == c;
    SkipsBlank(before, mid + after);
    Sharp(mid + after);
    CutsBlank(mid, after);
    assert Trim(line) == mid && mid[0] == c;
  }

  lemma {:induction false} LeadingAll(s: string, n: nat)
    requires n < |s| && (forall k :: 0 <= k < n ==> s[k] == '#') && s[n] != '#'
    ensures Leading(s, '#') == n
  {
    if n > 0 {
      LeadingAll(s[1..], n - 1);
    }
  }

  lemma TitleLine(level: nat, gap: string, text: string)
    requires Printable(Title(level, gap, text))
    ensures var line := Repeat('#', level) + (gap + text);
            && line != "" && line[0] == '#' && Leading(line, '#') == level
            && IsHeading(line) && HeadingText(line) == text
  {
    var line := Repeat('#', level) + (gap + text);
    assert gap[0] in gap;
    assert line[level] == gap[0] && line[level..] == gap + text;
    LeadingAll(line, level);
    SkipsGap(gap, text);
  }

  lemma TitleReadsBack(level: nat, gap: string, text: string)
    requires Printable(Title(level, gap, text))
    ensures ReadsBack([Repeat('#', level) + (gap + text)], Heading(level, text))
  {
    TitleLine(level, gap, text);
    Sharp(Repeat('#', level) + (gap + text));
  }

  // ----- quotes and lists -----

  /** What the loop has to see in a line of a quote or list: where it belongs and what it says. */
  ghost predicate Says(line: string, kind: Kind, text: string) {
    && Unmarked(line, kind) == text && !IsFence(line) && !IsRule(line) && !IsHeading(line)
    && match kind
       case QuoteKind => IsQuote(line) && !OnlyDelimits(line)
       case BulletKind => IsBullet(line) && !IsQuote(line)
       case NumberKind => IsNumber(line) && !IsQuote(line) && !IsBullet(line) && !OnlyDelimits(line)
       case _ => false
  }

  /** White space before a line of a quote or list changes nothing. */
  lemma SaysIndented(a: string, t: string, kind: Kind, text: string)
    requires Blank(a) && t != "" && !IsSpace(t[0]) && t[0] != '#' && Says(t, kind, text)
    ensures Says(a + t, kind, text)
  {
    SkipsBlank(a, t);
    NoHeading(a, t);
    if OnlyDelimits(a + t) {
      forall c | c in t ensures IsSpace(c) || c == ':' || c == '|' || c == '-' {
        assert c in a + t;
      }
    }
  }

  /** Only a hash at its very start makes a line a heading. */
  lemma NoHeading(a: string, t: string)
    requires Blank(a) && t != "" && t[0] != '#'
    ensures !IsHeading(a + t)
  {
    if a == "" {
      assert a + t == t;
    } else {
      assert a[0] in a && (a + t)[0] == a[0];
    }
  }

  lemma BareQuoteSays(gap: string, text: string)
    requires if gap == "" then StartsSharp(text) else |gap| == 1 && IsSpace(gap[0])
    ensures Says(['>'] + (gap + text), QuoteKind, text)
  {
    var t := ['>'] + (gap + text);
    Sharp(t);
    assert t[1..] == gap + text && (gap + text)[|gap|..] == text;
    assert gap == "" ==> gap + text == text;
    assert t[0] == '>' && t[0] in t;
  }

  lemma QuoteSays(m: string, text: string)
    requires QuoteMark(m, text)
    ensures Says(m + text, QuoteKind, text)
  {
    var n: nat :| QuoteAt(m, n, text);
    var gap := m[n + 1..];
    assert m + text == m[..n] + (['>'] + (gap + text));
    BareQuoteSays(gap, text);
    SaysIndented(m[..n], ['>'] + (gap + text), QuoteKind, text);
  }

  lemma BareDashSays(c: char, gap: string, text: string)
    requires (c == '-' || c == '*') && Gap(gap) && StartsSharp(text)
    ensures Says([c] + (gap + text), BulletKind, text)
  {
    var t := [c] + (gap + text);
    Sharp(t);
    assert t[1..] == gap + text && t[1] == gap[0] && gap[0] in gap;
    SkipsGap(gap, text);
    SpacedIsNoRule(t);
  }

  lemma SpacedIsNoRule(t: string)
    requires |t| >= 2 && !IsSpace(t[0]) && IsSpace(t[1])
    ensures !IsRule(t)
  {
    Sharp(t);
    var r := Trim(t);
    if |r| >= 3 {
      assert r[1] == t[1];
    }
  }

  lemma DashSays(m: string, text: string)
    requires DashMark(m) && StartsSharp(text)
    ensures Says(m + text, BulletKind, text)
  {
    var n: nat :| DashAt(m, n);
    var gap := m[n + 1..];
    assert m + text == m[..n] + ([m[n]] + (gap + text));
    BareDashSays(m[n], gap, text);
    SaysIndented(m[..n], [m[n]] + (gap + text), BulletKind, text);
  }

  lemma {:induction false} DigitsOf(ds: string, rest: string)
    requires AllDigits(ds) && rest != "" && !('0' <= rest[0] <= '9')
    ensures Digits(ds + rest) == |ds| && (ds + rest)[|ds|..] == rest
  {
    if ds == "" {
      assert ds + rest == rest;
    } else {
      assert (ds + rest)[0] == ds[0] && (ds + rest)[1..] == ds[1..] + rest;
      DigitsOf(ds[1..], rest);
    }
  }

  lemma BareCountSays(ds: string, gap: string, text: string)
    requires ds != "" && AllDigits(ds) && Gap(gap) && StartsSharp(text)
    ensures Says(ds + (['.'] + (gap + text)), NumberKind, text)
  {
    var rest := ['.'] + (gap + text);
    var t := ds + rest;
    assert t[0] == ds[0];
    Sharp(t);
    DigitsOf(ds, rest);
    assert t[|ds|] == rest[0] && t[|ds| + 1] == rest[1] == gap[0] && gap[0] in gap;
    assert t[|ds| + 1..] == rest[1..] == gap + text;
    SkipsGap(gap, text);
    assert t[0] in t;
  }

  lemma CountSays(m: string, text: string)
    requires CountMark(m) && StartsSharp(text)
    ensures Says(m + text, NumberKind, text)
  {
    var n: nat, k: nat :| CountAt(m, n, k);
    CountAtSays(m, n, k, text);
  }

  lemma CutMark(m: string, n: nat, k: nat, text: string)
    requires n < k < |m|
    ensures m + text == m[..n] + (m[n..k] + ([m[k]] + (m[k + 1..] + text)))
  {
  }

  lemma CountAtSays(m: string, n: nat, k: nat, text: string)
    requires CountAt(m, n, k) && StartsSharp(text)
    ensures Says(m + text, NumberKind, text)
  {
    var ds, gap := m[n..k], m[k + 1..];
    var t := ds + (['.'] + (gap + text));
    CutMark(m, n, k, text);
    BareCountSays(ds, gap, text);
    assert t[0] == ds[0];
    SaysIndented(m[..n], t, NumberKind, text);
  }

  /** Lines that all say what they should are one block. */
  lemma AllSay(ls: seq<string>, kind: Kind, texts: seq<string>)
    requires ls != [] && |ls| == |texts| && forall k :: 0 <= k < |ls| ==> Says(ls[k], kind, texts[k])
    requires !TableAhead(ls)
    ensures KindOf(ls) == kind && Texts(ls, kind) == texts
    ensures TurnOf(ls) == ([if kind.QuoteKind? then Quote(texts) else if kind.BulletKind? then Bullets(texts)
                            else Numbers(texts)], |ls|)
  {
    assert Says(ls[0], kind, texts[0]);
    RunOver(ls, if kind.QuoteKind? then IsQuote else if kind.BulletKind? then IsBullet else IsNumber);
    assert ls[..|ls|] == ls && Texts(ls, kind) == texts;
  }

  lemma QuotedReadsBack(marks: seq<string>, lines: seq<string>)
    requires Printable(Quoted(marks, lines))
    ensures ReadsBack(Each(marks, lines), Quote(lines))
  {
    var ls := Each(marks, lines);
    forall k | 0 <= k < |ls| ensures Says(ls[k], QuoteKind, lines[k]) {
      QuoteSays(marks[k], lines[k]);
    }
    assert |ls| > 1 ==> Says(ls[1], QuoteKind, lines[1]);
    AllSay(ls, QuoteKind, lines);
  }

  lemma DashedReadsBack(marks: seq<string>, items: seq<string>)
    requires Printable(Dashed(marks, items))
    ensures ReadsBack(Each(marks, items), Bullets(items))
  {
    var ls := Each(marks, items);
    forall k | 0 <= k < |ls| ensures Says(ls[k], BulletKind, items[k]) {
      DashSays(marks[k], items[k]);
    }
    NoPipe(marks[0], items[0]);
    AllSay(ls, BulletKind, items);
  }

  /** The one thing that keeps a list from being read as one: its first two lines are taken for a table. */
  lemma DashedExactly(marks: seq<string>, items: seq<string>)
    requires items != [] && |marks| == |items|
    requires forall k :: 0 <= k < |items| ==> DashMark(marks[k]) && StartsSharp(items[k])
    ensures ReadsBack(Each(marks, items), Bullets(items)) <==> !LooksLikeTable(marks, items)
  {
    if LooksLikeTable(marks, items) {
      var ls := Each(marks, items);
      DashSays(marks[0], items[0]);
      NoPipe(marks[0], items[0]);
      HoldsDash(marks[1], items[1]);
      assert KindOf(ls) == TableKind;
    } else {
      DashedReadsBack(marks, items);
    }
  }

  lemma HoldsDash(m: string, item: string)
    requires DashMark(m) && OnlyDelimits(m + item)
    ensures '-' in m + item
  {
    var n: nat :| DashAt(m, n);
    assert (m + item)[n] == m[n] && m[n] in m + item;
  }

  lemma NoPipe(m: string, item: string)
    requires DashMark(m)
    ensures '|' in m + item <==> '|' in item
  {
    var n: nat :| DashAt(m, n);
    assert m == m[..n] + [m[n]] + m[n + 1..];
    assert '|' !in m[..n] && '|' !in m[n + 1..];
  }

  lemma CountedReadsBack(marks: seq<string>, items: seq<string>)
    requires Printable(Counted(marks, items))
    ensures ReadsBack(Each(marks, items), Numbers(items))
  {
    var ls := Each(marks, items);
    forall k | 0 <= k < |ls| ensures Says(ls[k], NumberKind, items[k]) {
      CountSays(marks[k], items[k]);
    }
    assert |ls| > 1 ==> Says(ls[1], NumberKind, items[1]);
    AllSay(ls, NumberKind, items);
  }

  // ----- tables -----

  lemma {:induction false} SplitOfJoin(pieces: seq<string>, c: char)
    requires pieces != [] && forall p :: p in pieces ==> c !in p
    ensures Split(Join(pieces, [c]), [c]) == pieces
  {
    var head := pieces[0];
    assert head in pieces;
    if |pieces| == 1 {
      FirstOf(head, c);
      assert pieces == [head];
    } else {
      SplitOfJoin(pieces[1..], c);
      SplitAt(head, Join(pieces[1..], [c]), c);
      assert pieces == [head] + pieces[1..];
    }
  }

  lemma PaddedCell(cell: string)
    requires IsCell(cell)
    ensures Trim(" " + cell + " ") == cell && '|' !in " " + cell + " "
  {
    assert " " + cell + " " == " " + (cell + " ");
    SkipsBlank(" ", cell + " ");
    if cell == "" {
      assert Trim(cell + " ") == "";
    } else {
      assert (cell + " ")[0] == cell[0];
      CutsBlank(cell, " ");
    }
  }

  lemma RowReads(cells: seq<string>)
    requires AreCells(cells)
    ensures var row := PrintRow(cells);
            && Cells(row) == cells && row != "" && row[0] == '|' && IsRow(row)
  {
    var inner, row := Join(Padded(cells), "|"), PrintRow(cells);
    forall p | p in Padded(cells) ensures '|' !in p {
      var k :| 0 <= k < |cells| && p == " " + cells[k] + " ";
      assert cells[k] in cells;
      PaddedCell(cells[k]);
    }
    SplitOfJoin(Padded(cells), '|');
    assert row[0] == '|' && row[1..] == inner + "|" && (inner + "|")[..|inner|] == inner;
    Sharp(row);
    forall k | 0 <= k < |cells| ensures Trim(Padded(cells)[k]) == cells[k] {
      assert cells[k] in cells;
      PaddedCell(cells[k]);
    }
    assert Cells(row) == cells;
  }

  /** A line that begins with a pipe is the head of a table if a delimiter follows. */
  lemma TableBegins(ls: seq<string>)
    requires |ls| > 1 && ls[0] != "" && ls[0][0] == '|' && OnlyDelimits(ls[1]) && '-' in ls[1]
    ensures KindOf(ls) == TableKind
  {
    Sharp(ls[0]);
  }

  lemma RowsRead(rows: seq<seq<string>>)
    requires forall r :: r in rows ==> AreCells(r)
    ensures Rows(PrintRows(rows)) == rows && RunLength(PrintRows(rows), IsRow) == |rows|
  {
    var ls := PrintRows(rows);
    forall k | 0 <= k < |rows| ensures Cells(ls[k]) == rows[k] && IsRow(ls[k]) {
      assert rows[k] in rows;
      RowReads(rows[k]);
    }
    RunOver(ls, IsRow);
  }

  lemma GridReadsBack(header: seq<string>, delimiter: string, rows: seq<seq<string>>)
    requires Printable(Grid(header, delimiter, rows))
    ensures ReadsBack([PrintRow(header), delimiter] + PrintRows(rows), Table(header, rows))
  {
    var ls := [PrintRow(header), delimiter] + PrintRows(rows);
    RowReads(header);
    TableBegins(ls);
    RowsRead(rows);
    assert ls[2..] == PrintRows(rows) && ls[2..][..|rows|] == ls[2..];
  }

  // ----- prose -----

  lemma ProseLine(l: string)
    requires IsProse(l)
    ensures !IsFence(l) && !IsRule(l) && !IsRule(Trim(l)) && !IsHeading(l) && !IsQuote(l) && !IsBullet(l)
            && !IsNumber(l) && !IsBlank(l) && !StopsParagraph(l)
  {
    Sharp(l);
    TrimTwice(l);
  }

  lemma {:induction false} ProseRuns(lines: seq<string>)
    requires forall l :: l in lines ==> IsProse(l)
    requires forall k :: 0 <= k < |lines| - 1 ==> !('|' in lines[k] && OnlyDelimits(lines[k + 1]))
    ensures ParagraphLength(lines) == |lines|
  {
    if lines != [] {
      assert lines[0] in lines;
      ProseLine(lines[0]);
      if |lines| > 1 {
        assert lines[0 + 1] == lines[1];
      }
      forall k | 0 <= k < |lines[1..]| - 1 ensures !('|' in lines[1..][k] && OnlyDelimits(lines[1..][k + 1])) {
        assert lines[1..][k] == lines[k + 1] && lines[1..][k + 1] == lines[k + 1 + 1];
      }
      ProseRuns(lines[1..]);
    }
  }

  lemma ProseReadsBack(lines: seq<string>)
    requires Printable(Prose(lines))
    ensures ReadsBack(lines, Paragraph(Join(lines, " ")))
  {
    assert lines[0] in lines;
    ProseLine(lines[0]);
    ProseRuns(lines);
    assert |lines| > 1 ==> lines[0 + 1] == lines[1];
    assert lines[..|lines|] == lines;
  }

  // ----- whole documents -----

  /** Every block comes back as what was written down. */
  lemma PieceReadsBack(p: Piece)
    requires Printable(p)
    ensures ReadsBack(Print(p), Meaning(p))
  {
    match p
    case Code(open, lines, close) => CodeReadsBack(open, lines, close);
    case Line(before, c, n, after) => LineReadsBack(before, c, n, after);
    case Title(level, gap, text) => TitleReadsBack(level, gap, text);
    case Grid(header, delimiter, rows) => GridReadsBack(header, delimiter, rows);
    case Quoted(marks, lines) => QuotedReadsBack(marks, lines);
    case Dashed(marks, items) => DashedReadsBack(marks, items);
    case Counted(marks, items) => CountedReadsBack(marks, items);
    case Prose(lines) => ProseReadsBack(lines);
  }

  lemma OneTurn(ls: seq<string>, b: Block)
    requires ReadsBack(ls, b)
    ensures Blocks(ls) == [b] && !EndsOpen(ls)
  {
    assert Left(TurnOf, ls) == [];
    assert BlocksBy(TurnOf, []) == [] && !OverrunsBy(TurnOf, []);
  }

  ghost predicate AllPrintable(ps: seq<Piece>) { forall p :: p in ps ==> Printable(p) }

  /** The pieces one after the other, an empty line between them. */
  function PrintAll(ps: seq<Piece>): seq<string> {
    if ps == [] then []
    else if |ps| == 1 then Print(ps[0])
    else Print(ps[0]) + [""] + PrintAll(ps[1..])
  }

  function Meanings(ps: seq<Piece>): seq<Block> {
    seq(|ps|, k requires 0 <= k < |ps| => Meaning(ps[k]))
  }

  lemma MeaningsSplit(ps: seq<Piece>)
    requires ps != []
    ensures Meanings(ps) == [Meaning(ps[0])] + Meanings(ps[1..]) && (|ps| == 1 ==> Meanings(ps) == [Meaning(ps[0])])
  {
  }

  /** What is written down piece by piece is read back piece by piece, in order. */
  lemma {:induction false} DocumentReadsBack(ps: seq<Piece>)
    requires AllPrintable(ps)
    ensures Blocks(PrintAll(ps)) == Meanings(ps)
  {
    if ps != [] {
      assert ps[0] in ps;
      PieceReadsBack(ps[0]);
      OneTurn(Print(ps[0]), Meaning(ps[0]));
      MeaningsSplit(ps);
      if |ps| > 1 {
        DocumentReadsBack(ps[1..]);
        BlocksCompose(Print(ps[0]), PrintAll(ps[1..]));
      }
    }
  }

  /** Lines without a line end in them, joined to one text by either kind of line break, are its lines again. */
  lemma TextReadsLines(ls: seq<string>)
    requires ls != [] && forall l :: l in ls ==> '\n' !in l && '\r' !in l
    ensures ToLines(Join(ls, "\n")) == ls && ToLines(Join(ls, "\r\n")) == ls
  {
    NoReturns(ls);
    UnifiedKeeps(Join(ls, "\n"));
    UnifiedJoins(ls);
    SplitOfJoin(ls, '\n');
  }

  lemma {:induction false} UnifiedJoins(ls: seq<string>)
    requires forall l :: l in ls ==> '\r' !in l
    ensures Unified(Join(ls, "\r\n")) == Join(ls, "\n")
  {
    if ls != [] {
      assert ls[0] in ls;
      if |ls| == 1 {
        UnifiedKeeps(ls[0]);
      } else {
        UnifiedJoins(ls[1..]);
        UnifiedBreak(ls[0], Join(ls[1..], "\r\n"));
      }
    }
  }

  lemma UnifiedBreak(head: string, rest: string)
    requires '\r' !in head
    ensures Unified(head + "\r\n" + rest) == head + "\n" + Unified(rest)
  {
    var tail := "\r\n" + rest;
    assert tail[2..] == rest && tail[0] == '\r' && tail[1] == '\n';
    UnifiedKeeps(head);
    UnifiedAppend(head, tail);
    Regroup(head, "\r\n", rest);
    Regroup(head, "\n", Unified(rest));
  }

  lemma {:induction false} NoReturns(ls: seq<string>)
    requires forall l :: l in ls ==> '\r' !in l
    ensures '\r' !in Join(ls, "\n")
  {
    if ls != [] {
      assert ls[0] in ls;
      if |ls| > 1 {
        NoReturns(ls[1..]);
      }
    }
  }

  lemma {:induction false} UnifiedKeeps(s: string)
    requires '\r' !in s
    ensures Unified(s) == s
  {
    if s != "" {
      assert s[0] in s;
      UnifiedKeeps(s[1..]);
    }
  }

  /** The same for a whole text: written as one string, it renders as what was meant. */
  lemma TextReadsBack(ps: seq<Piece>)
    requires ps != [] && AllPrintable(ps)
    requires forall l :: l in PrintAll(ps) ==> '\n' !in l && '\r' !in l
    ensures Blocks(ToLines(Join(PrintAll(ps), "\n"))) == Meanings(ps)
    ensures Blocks(ToLines(Join(PrintAll(ps), "\r\n"))) == Meanings(ps)
  {
    assert ps[0] in ps;
    PieceReadsBack(ps[0]);
    TextReadsLines(PrintAll(ps));
    DocumentReadsBack(ps);
  }
}
