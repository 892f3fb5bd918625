/** The HTML escaping chain of the chat bubbles, `ai-assistant.tsx`. */
module Escape {
  import opened Text

  /** `replace(/&/g, ..).replace(/</g, ..).replace(/>/g, ..).replace(/"/g, ..)` */
  function Escaped(s: string): string {
    ReplaceAll(ReplaceAll(ReplaceAll(ReplaceAll(s, "&", "&amp;"), "<", "&lt;"), ">", "&gt;"), "\"", "&quot;")
  }

  /** What one character stands for in HTML text. */
  function Entity(c: char): string {
    match c
    case '&' => "&amp;"
    case '<' => "&lt;"
    case '>' => "&gt;"
    case '"' => "&quot;"
    case _ => [c]
  }

  /** All characters replaced at once. */
  function Entities(s: string): string {
    if s == "" then "" else Entity(s[0]) + Entities(s[1..])
  }

  /** How a browser reads the text back: the longest entity at the front, else the character itself. */
  function Unescaped(h: string): string
    decreases |h|
  {
    if h == "" then ""
    else if "&amp;" <= h then "&" + Unescaped(h[5..])
    else if "&lt;" <= h then "<" + Unescaped(h[4..])
    else if "&gt;" <= h then ">" + Unescaped(h[4..])
    else if "&quot;" <= h then "\"" + Unescaped(h[6..])
    else [h[0]] + Unescaped(h[1..])
  }

  /** One character replaced wherever it stands. */
  function MapChar(t: string, c: char, r: string): string {
    if t == "" then "" else (if t[0] == c then r else [t[0]]) + MapChar(t[1..], c, r)
  }

  lemma {:induction false} MapCharAppend(a: string, b: string, c: char, r: string)
    ensures MapChar(a + b, c, r) == MapChar(a, c, r) + MapChar(b, c, r)
  {
    if a == "" {
      assert a + b == b;
    } else {
      var head, x, y := if a[0] == c then r else [a[0]], MapChar(a[1..], c, r), MapChar(b, c, r);
      assert (a + b)[1..] == a[1..] + b && (a + b)[0] == a[0];
      MapCharAppend(a[1..], b, c, r);
      assert MapChar(a + b, c, r) == head + (x + y);
      assert head + (x + y) == head + x + y;
    }
  }

  lemma {:induction false} MapCharAbsent(t: string, c: char, r: string)
    requires c !in t
    ensures MapChar(t, c, r) == t
  {
    if t != "" {
      MapCharAbsent(t[1..], c, r);
      assert t == [t[0]] + t[1..];
    }
  }

  lemma MapCharCons(x: char, u: string, c: char, r: string)
    ensures MapChar([x] + u, c, r) == (if x == c then r else [x]) + MapChar(u, c, r)
    ensures MapChar([x], c, r) == if x == c then r else [x]
  {
    assert ([x] + u)[1..] == u && [x][1..] == "";
  }

  lemma MapCharAt(a: string, u: string, c: char, r: string)
    requires c !in a
    ensures MapChar(a + [c] + u, c, r) == a + r + MapChar(u, c, r)
  {
    MapCharAppend(a + [c], u, c, r);
    MapCharAppend(a, [c], c, r);
    MapCharAbsent(a, c, r);
    MapCharCons(c, "", c, r);
  }

  lemma {:induction false} ReplaceIsMapChar(t: string, c: char, r: string)
    ensures ReplaceAll(t, [c], r) == MapChar(t, c, r)
    decreases |t|
  {
    var k := IndexOf([c], t, 0);
    FirstOf(t, c);
    if k == -1 {
      MapCharAbsent(t, c, r);
    } else {
      MapCharAt(t[..k], t[k + 1..], c, r);
      assert t == t[..k] + [c] + t[k + 1..];
      ReplaceIsMapChar(t[k + 1..], c, r);
    }
  }

  function Chain(s: string): string {
    Chain3(MapChar(s, '&', "&amp;"))
  }

  function Chain3(s: string): string {
    Chain2(MapChar(s, '<', "&lt;"))
  }

  function Chain2(s: string): string {
    MapChar(MapChar(s, '>', "&gt;"), '"', "&quot;")
  }

  lemma Chain3Skips(s: string)
    requires '<' !in s && '>' !in s && '"' !in s
    ensures Chain3(s) == s && Chain2(s) == s
  {
    MapCharAbsent(s, '<', "&lt;");
    MapCharAbsent(s, '>', "&gt;");
    MapCharAbsent(s, '"', "&quot;");
  }

  lemma ChainAppend(a: string, b: string)
    ensures Chain(a + b) == Chain(a) + Chain(b)
  {
    var a1, b1 := MapChar(a, '&', "&amp;"), MapChar(b, '&', "&amp;");
    var a2, b2 := MapChar(a1, '<', "&lt;"), MapChar(b1, '<', "&lt;");
    var a3, b3 := MapChar(a2, '>', "&gt;"), MapChar(b2, '>', "&gt;");
    MapCharAppend(a, b, '&', "&amp;");
    MapCharAppend(a1, b1, '<', "&lt;");
    MapCharAppend(a2, b2, '>', "&gt;");
    MapCharAppend(a3, b3, '"', "&quot;");
  }

  /** No later replacement of the chain disturbs the entity an earlier one put in. */
  lemma ChainOne(x: char)
    ensures Chain([x]) == Entity(x)
  {
    MapCharCons(x, "", '&', "&amp;");
    if x == '&' {
      Chain3Skips(MapChar([x], '&', "&amp;"));
    } else {
      Chain3One(x);
    }
  }

  lemma Chain3One(x: char)
    requires x != '&'
    ensures Chain3([x]) == Entity(x)
  {
    MapCharCons(x, "", '<', "&lt;");
    if x == '<' {
      Chain3Skips(MapChar([x], '<', "&lt;"));
    } else {
      Chain2One(x);
    }
  }

  lemma Chain2One(x: char)
    requires x != '&' && x != '<'
    ensures Chain2([x]) == Entity(x)
  {
    MapCharCons(x, "", '>', "&gt;");
    MapCharCons(x, "", '"', "&quot;");
    if x == '>' {
      MapCharAbsent(MapChar([x], '>', "&gt;"), '"', "&quot;");
    }
  }

  lemma {:induction false} ChainIsEntities(s: string)
    ensures Chain(s) == Entities(s)
  {
    if s != "" {
      assert s == [s[0]] + s[1..];
      ChainAppend([s[0]], s[1..]);
      ChainOne(s[0]);
      ChainIsEntities(s[1..]);
    }
  }

  /** The four replacements in sequence are one simultaneous replacement. */
  lemma ChainIsSimultaneous(s: string)
    ensures Escaped(s) == Entities(s)
  {
    var s1 := MapChar(s, '&', "&amp;");
    var s2 := MapChar(s1, '<', "&lt;");
    var s3 := MapChar(s2, '>', "&gt;");
    ReplaceIsMapChar(s, '&', "&amp;");
    ReplaceIsMapChar(s1, '<', "&lt;");
    ReplaceIsMapChar(s2, '>', "&gt;");
    ReplaceIsMapChar(s3, '"', "&quot;");
    ChainIsEntities(s);
  }

  lemma UnescapedEntity(c: char, h: string)
    ensures Unescaped(Entity(c) + h) == [c] + Unescaped(h)
  {
    var e := Entity(c) + h;
    assert e[|Entity(c)|..] == h;
    if Entity(c) == [c] {
      assert e[0] == c;
    } else {
      assert Entity(c) <= e;
      assert e[1] == Entity(c)[1];
      assert e[..4] == Entity(c)[..4];
    }
  }

  lemma {:induction false} UnescapedEntities(s: string)
    ensures Unescaped(Entities(s)) == s
  {
    if s != "" {
      UnescapedEntity(s[0], Entities(s[1..]));
      UnescapedEntities(s[1..]);
    }
  }

  /** The reader sees exactly the text that was written, and no character of it is left to open or close a tag. */
  lemma EscapedRoundTrip(s: string)
    ensures Unescaped(Escaped(s)) == s
    ensures '<' !in Escaped(s) && '>' !in Escaped(s) && '"' !in Escaped(s)
  {
    ChainIsSimultaneous(s);
    UnescapedEntities(s);
    EntitiesAreTagFree(s);
  }

  lemma {:induction false} EntitiesAreTagFree(s: string)
    ensures '<' !in Entities(s) && '>' !in Entities(s) && '"' !in Entities(s)
  {
    if s != "" {
      EntitiesAreTagFree(s[1..]);
    }
  }
}
