/** What becomes of a piece of a chat answer: what is taken for SQL, and what is cut off. */
module ChatParts {
  import opened ChatContent
  import opened Text

  ghost predicate Blank(s: string) { forall c :: c in s ==> IsSpace(c) }

  /** `cut` is `s` without the white space at its ends. */
  ghost predicate CutFrom(s: string, cut: string) {
    && (cut != "" ==> !IsSpace(cut[0]) && !IsSpace(cut[|cut| - 1]))
    && exists lo: nat, hi: nat :: lo <= hi <= |s| && cut == s[lo..hi] && Blank(s[..lo]) && Blank(s[hi..])
  }

  /** The three letters of SQL, large or small. */
  predicate SaysSql(lang: string) {
    |lang| == 3 && lang[0] in {'s', 'S'} && lang[1] in {'q', 'Q'} && lang[2] in {'l', 'L'}
  }

  /** What is shown of a segment. */
  ghost predicate ShownAs(s: Segment, p: Part) {
    match s
    case Plain(text) => p == Part(TextPart, text, "")
    case Block(lang, _, body) =>
      && p.kind == (if SaysSql(lang) then SqlPart else CodePart)
      && p.lang == (if lang == "" then "code" else lang) && CutFrom(body, p.value)
  }

  lemma {:induction false} TrimStartCuts(s: string)
    ensures |TrimStart(s)| <= |s| && s[|s| - |TrimStart(s)|..] == TrimStart(s) && Blank(s[..|s| - |TrimStart(s)|])
  {
    TrimStartFacts(s);
    if s != "" && IsSpace(s[0]) {
      TrimStartCuts(s[1..]);
      var n := |s| - |TrimStart(s)|;
      assert s[..n] == [s[0]] + s[1..][..n - 1];
    }
  }

  lemma {:induction false} TrimEndCuts(s: string)
    ensures TrimEnd(s) <= s && Blank(s[|TrimEnd(s)|..])
  {
    TrimEndFacts(s);
    if s != "" && IsSpace(s[|s| - 1]) {
      var r := s[..|s| - 1];
      TrimEndCuts(r);
      assert s[|TrimEnd(s)|..] == r[|TrimEnd(s)|..] + [s[|s| - 1]];
    }
  }

  lemma CutTwice(s: string, lo: nat, r: string)
    requires lo <= |s| && Blank(s[..lo]) && r <= s[lo..] && Blank(s[lo..][|r|..])
    requires r != "" ==> !IsSpace(r[0]) && !IsSpace(r[|r| - 1])
    ensures CutFrom(s, r)
  {
    var hi := lo + |r|;
    assert r == s[lo..][..|r|] == s[lo..hi];
    assert s[lo..][|r|..] == s[hi..];
  }

  lemma TrimIsCut(s: string)
    ensures CutFrom(s, Trim(s))
  {
    var t := TrimStart(s);
    TrimStartCuts(s);
    TrimEndCuts(t);
    TrimmedEnds(s);
    CutTwice(s, |s| - |t|, Trim(s));
  }

  lemma TrimmedEnds(s: string)
    ensures Trim(s) != "" ==> !IsSpace(Trim(s)[0]) && !IsSpace(Trim(s)[|Trim(s)| - 1])
  {
    var t := TrimStart(s);
    TrimStartFacts(s);
    TrimEndFacts(t);
    assert Trim(s) != "" ==> Trim(s)[0] == t[0];
  }

  lemma SqlIsTold(lang: string)
    ensures Lower(lang) == "sql" <==> SaysSql(lang)
  {
    var l := Lower(lang);
    if SaysSql(lang) {
      assert l[0] == 's' && l[1] == 'q' && l[2] == 'l';
      assert l == "sql";
    }
    if l == "sql" {
      assert l[0] == 's' && l[1] == 'q' && l[2] == 'l';
    }
  }

  /** The parts of an answer are its segments, each shown as it has to be. */
  lemma PartsAreShown(ss: seq<Segment>, parts: seq<Part>)
    requires Canonical(ss, false) && PartsOf(Sources(ss), parts)
    ensures |parts| == |ss| && forall k :: 0 <= k < |ss| ==> ShownAs(ss[k], parts[k])
  {
    PartsAreSettled(Sources(ss), parts, ToParts(ss));
    forall k | 0 <= k < |ss| ensures ShownAs(ss[k], parts[k]) {
      if ss[k].Block? {
        SqlIsTold(ss[k].lang);
        TrimIsCut(ss[k].body);
      }
    }
  }
}
