/** The password generator and its validator, `connection-strings.tsx`. */
module Passwords {
  import opened Options
  import opened Text
  import Secrets

  const LOWER := "abcdefghijklmnopqrstuvwxyz"
  const UPPER := "ABCDEFGHIJKLMNOPQRSTUVWXYZ"
  const DIGITS := "0123456789"
  const SYMBOLS := "!@#$%^&*()-_=+[]{};:,.?"
  const ALL := LOWER + UPPER + DIGITS + SYMBOLS

  predicate IsLower(c: char) { 'a' <= c <= 'z' }
  predicate IsUpper(c: char) { 'A' <= c <= 'Z' }
  predicate IsDigit(c: char) { '0' <= c <= '9' }
  predicate IsSpecial(c: char) { !IsLower(c) && !IsUpper(c) && !IsDigit(c) }

  /** `passwordSchema` accepts `p`. */
  ghost predicate Accepted(p: string) {
    && |p| >= 8
    && (exists c :: c in p && IsLower(c))
    && (exists c :: c in p && IsUpper(c))
    && (exists c :: c in p && IsDigit(c))
    && (exists c :: c in p && IsSpecial(c))
    && (forall c :: c in p ==> !IsSpace(c))
  }

  /** The characters of the four alphabets, as ranges: visible ASCII without ` " ' < > / \ | ~ */
  predicate Typeable(c: char) {
    IsLower(c) || IsUpper(c) || IsDigit(c) || c == '!' || '#' <= c <= '&' || '(' <= c <= '.' || c == ':' || c == ';'
    || c == '=' || c == '?' || c == '@' || c == '[' || c == ']' || c == '^' || c == '_' || c == '{' || c == '}'
  }

  lemma TypeableIsPlain(c: char)
    requires Typeable(c)
    ensures !IsSpace(c) && c != '<' && c != '>' && c != Secrets.BULLET
  {
  }

  lemma LowerAlphabet(c: char)
    requires c in LOWER
    ensures IsLower(c)
  {
  }

  lemma UpperAlphabet(c: char)
    requires c in UPPER
    ensures IsUpper(c)
  {
  }

  lemma DigitAlphabet(c: char)
    requires c in DIGITS
    ensures IsDigit(c)
  {
  }

  lemma SymbolAlphabet(c: char)
    requires c in SYMBOLS
    ensures IsSpecial(c) && Typeable(c)
  {
  }

  lemma AllAlphabet(c: char)
    requires c in ALL
    ensures Typeable(c)
  {
    if c in LOWER {
      LowerAlphabet(c);
    } else if c in UPPER {
      UpperAlphabet(c);
    } else if c in DIGITS {
      DigitAlphabet(c);
    } else {
      SymbolAlphabet(c);
    }
  }

  function Swap(s: string, i: nat, j: nat): string
    requires i < |s| && j < |s|
  {
    s[i := s[j]][j := s[i]]
  }

  /** One draw for every position: `draws[i]` is the partner of position `i`, at most `i`. */
  predicate Draws(draws: seq<nat>, n: nat) {
    |draws| == n && forall i :: 0 < i < n ==> draws[i] <= i
  }

  /** The exchanges of the shuffle from position `i` down to position 1. */
  ghost function Shuffled(s: string, draws: seq<nat>, i: nat): (t: string)
    requires Draws(draws, |s|) && (s == "" || i < |s|)
    ensures |t| == |s|
    decreases i
  {
    if s == "" || i == 0 then s else Shuffled(Swap(s, i, draws[i]), draws, i - 1)
  }

  lemma SwapPermutes(s: string, i: nat, j: nat)
    requires i < |s| && j < |s|
    ensures multiset(Swap(s, i, j)) == multiset(s)
  {
  }

  /** The shuffle only permutes, and leaves everything above its start in place. */
  lemma {:induction false} ShufflePermutes(s: string, draws: seq<nat>, i: nat)
    requires s != "" && i < |s| && Draws(draws, |s|)
    ensures multiset(Shuffled(s, draws, i)) == multiset(s)
    ensures Shuffled(s, draws, i)[i + 1..] == s[i + 1..]
    decreases i
  {
    if i > 0 {
      var s' := Swap(s, i, draws[i]);
      SwapPermutes(s, i, draws[i]);
      ShufflePermutes(s', draws, i - 1);
      var t := Shuffled(s', draws, i - 1);
      forall k | i < k < |s| ensures t[k] == s[k] {
        assert t[i..][k - i] == s'[i..][k - i];
      }
    }
  }

  /** Every arrangement can come out of the shuffle: no draw is wasted and none is missing. */
  lemma {:induction false} ShuffleReachesAll(s: string, t: string, i: nat) returns (draws: seq<nat>)
    requires s != "" && i < |s| == |t|
    requires multiset(s[..i + 1]) == multiset(t[..i + 1]) && s[i + 1..] == t[i + 1..]
    ensures Draws(draws, |s|) && Shuffled(s, draws, i) == t
    decreases i
  {
    if i == 0 {
      draws := seq(|s|, _ => 0);
      PrefixesOfOne(s, t);
    } else {
      assert t[i] in multiset(t[..i + 1]);
      var j: nat :| j <= i && s[j] == t[i];
      var s' := Swap(s, i, j);
      SwapSettles(s, t, i, j);
      var rest := ShuffleReachesAll(s', t, i - 1);
      draws := rest[i := j];
      ShuffleIgnores(s', rest, i - 1, i, j);
    }
  }

  lemma PrefixesOfOne(s: string, t: string)
    requires s != "" && |s| == |t| && multiset(s[..1]) == multiset(t[..1]) && s[1..] == t[1..]
    ensures s == t
  {
    assert s[..1] == [s[0]] && t[..1] == [t[0]];
    assert multiset([s[0]])[t[0]] == multiset([t[0]])[t[0]];
    assert s == [s[0]] + s[1..] && t == [t[0]] + t[1..];
  }

  /** Moving the right character to position `i` leaves the same problem below `i`. */
  lemma SwapSettles(s: string, t: string, i: nat, j: nat)
    requires j <= i < |s| == |t| && s[j] == t[i]
    requires multiset(s[..i + 1]) == multiset(t[..i + 1]) && s[i + 1..] == t[i + 1..]
    ensures var s' := Swap(s, i, j); multiset(s'[..i]) == multiset(t[..i]) && s'[i..] == t[i..]
  {
    var s' := Swap(s, i, j);
    SwapPermutes(s[..i + 1], i, j);
    SwapOfPrefix(s, i, j);
    assert t[..i + 1] == t[..i] + [t[i]];
    CancelLast(s'[..i], t[..i], t[i]);
    assert t[i..] == [t[i]] + t[i + 1..];
  }

  lemma SwapOfPrefix(s: string, i: nat, j: nat)
    requires j <= i < |s|
    ensures Swap(s[..i + 1], i, j) == Swap(s, i, j)[..i] + [s[j]]
    ensures Swap(s, i, j)[i..] == [s[j]] + s[i + 1..]
  {
  }

  lemma CancelLast(a: string, b: string, c: char)
    requires multiset(a + [c]) == multiset(b + [c])
    ensures multiset(a) == multiset(b)
  {
    assert multiset(a) == multiset(a + [c]) - multiset{c};
    assert multiset(b) == multiset(b + [c]) - multiset{c};
  }

  /** Draws above the start of the shuffle do not matter. */
  lemma {:induction false} ShuffleIgnores(s: string, draws: seq<nat>, i: nat, at: nat, j: nat)
    requires s != "" && i < at < |s| && j <= at && Draws(draws, |s|)
    ensures Shuffled(s, draws, i) == Shuffled(s, draws[at := j], i)
    decreases i
  {
    if i > 0 {
      ShuffleIgnores(Swap(s, i, draws[i]), draws, i - 1, at, j);
    }
  }

  /** Different draws arrange distinct characters differently, so equally likely draws shuffle fairly. */
  lemma {:induction false} ShuffleInjective(s: string, d: seq<nat>, e: seq<nat>, i: nat)
    requires s != "" && i < |s| && Draws(d, |s|) && Draws(e, |s|)
    requires forall x, y :: 0 <= x < y < |s| ==> s[x] != s[y]
    requires Shuffled(s, d, i) == Shuffled(s, e, i)
    ensures forall k :: 0 < k <= i ==> d[k] == e[k]
    decreases i
  {
    if i > 0 {
      LandsAtTop(s, d, i);
      LandsAtTop(s, e, i);
      SwapKeepsApart(s, i, d[i]);
      ShuffleInjective(Swap(s, i, d[i]), d, e, i - 1);
    }
  }

  /** The first exchange settles position `i`. */
  lemma LandsAtTop(s: string, draws: seq<nat>, i: nat)
    requires 0 < i < |s| && Draws(draws, |s|)
    ensures Shuffled(s, draws, i) == Shuffled(Swap(s, i, draws[i]), draws, i - 1)
    ensures Shuffled(s, draws, i)[i] == s[draws[i]]
  {
    var t := Swap(s, i, draws[i]);
    ShufflePermutes(t, draws, i - 1);
    assert Shuffled(t, draws, i - 1)[i..][0] == t[i..][0];
  }

  lemma SwapKeepsApart(s: string, i: nat, j: nat)
    requires i < |s| && j < |s| && forall x, y :: 0 <= x < y < |s| ==> s[x] != s[y]
    ensures forall x, y :: 0 <= x < y < |s| ==> Swap(s, i, j)[x] != Swap(s, i, j)[y]
  {
    forall x, y | 0 <= x < y < |s| ensures Swap(s, i, j)[x] != Swap(s, i, j)[y] {
      var a, b := if x == i then j else if x == j then i else x, if y == i then j else if y == j then i else y;
      assert a != b && Swap(s, i, j)[x] == s[a] && Swap(s, i, j)[y] == s[b];
    }
  }

  /** From which alphabet the character at each position is drawn, before the shuffle. */
  type Alphabets = nat -> string

  /** The alphabets of the generator: one for each class, and then all of them. */
  function AlphabetOf(k: nat): string {
    if k == 0 then LOWER else if k == 1 then UPPER else if k == 2 then DIGITS else if k == 3 then SYMBOLS else ALL
  }

  /** One draw from its alphabet for every character. */
  predicate Picks(abc: Alphabets, picks: seq<nat>) {
    |picks| >= 4 && forall k :: 0 <= k < |picks| ==> picks[k] < |abc(k)|
  }

  /** The characters drawn. */
  function Seeded(abc: Alphabets, picks: seq<nat>): (s: string)
    requires Picks(abc, picks)
    ensures |s| == |picks| && forall k :: 0 <= k < |picks| ==> s[k] == abc(k)[picks[k]]
  {
    seq(|picks|, k requires 0 <= k < |picks| => abc(k)[picks[k]])
  }

  /** The in-place shuffle, for any random numbers. */
  method Shuffle(seeded: array<char>, draws: seq<nat>)
    requires seeded.Length > 0 && Draws(draws, seeded.Length)
    modifies seeded
    ensures seeded[..] == Shuffled(old(seeded[..]), draws, seeded.Length - 1)
  {
    var i := seeded.Length - 1;
    while i > 0
      invariant 0 <= i < seeded.Length
      invariant Shuffled(seeded[..], draws, i) == Shuffled(old(seeded[..]), draws, seeded.Length - 1)
    {
      ghost var before := seeded[..];
      var j := draws[i];
      seeded[i], seeded[j] := seeded[j], seeded[i];
      assert seeded[..] == Swap(before, i, j);
      i := i - 1;
    }
  }

  /** One character of each class. */
  method PickFour(picks: seq<nat>) returns (four: string)
    requires Picks(AlphabetOf, picks)
    ensures four == Seeded(AlphabetOf, picks)[..4]
  {
    four := [LOWER[picks[0]], UPPER[picks[1]], DIGITS[picks[2]], SYMBOLS[picks[3]]];
    var s := Seeded(AlphabetOf, picks);
    assert s[0] == four[0] && s[1] == four[1] && s[2] == four[2] && s[3] == four[3];
  }

  /** One character of each class, then arbitrary ones up to the length asked for. */
  method Seed(length: int, picks: seq<nat>) returns (seeded: string)
    requires Picks(AlphabetOf, picks) && |picks| == (if length < 4 then 4 else length)
    ensures seeded == Seeded(AlphabetOf, picks)
  {
    seeded := PickFour(picks);
    var i := |seeded|;
    while i < length
      invariant 4 <= i <= |picks| && seeded == Seeded(AlphabetOf, picks)[..i]
    {
      assert AlphabetOf(i) == ALL;
      seeded := seeded + [ALL[picks[i]]];
      i := i + 1;
    }
  }

  /** The password the draws name: the characters drawn, exchanged as drawn. */
  ghost function Generated(abc: Alphabets, picks: seq<nat>, partners: seq<nat>): string
    requires Picks(abc, picks) && Draws(partners, |picks|)
  {
    Shuffled(Seeded(abc, picks), partners, |picks| - 1)
  }

  /** Shuffles and joins. */
  method Scatter(seeded: string, partners: seq<nat>) returns (password: string)
    requires seeded != "" && Draws(partners, |seeded|)
    ensures password == Shuffled(seeded, partners, |seeded| - 1)
  {
    var cells := new char[|seeded|](k requires 0 <= k < |seeded| => seeded[k]);
    assert cells[..] == seeded;
    Shuffle(cells, partners);
    password := cells[..];
  }

  /** Of the length asked for, four at least, and of the four alphabets; accepted exactly from eight on. */
  ghost predicate Strong(p: string, length: int) {
    && |p| == (if length < 4 then 4 else length) && (forall c :: c in p ==> Typeable(c))
    && (Accepted(p) <==> length >= 8)
  }

  /**
   `generateStrongPassword`, for any random numbers: the password has the length asked for (four at least), uses only
   the four alphabets, and is accepted by the validator exactly when eight characters were asked for.
   */
  method GenerateStrongPassword(length: int, picks: seq<nat>, partners: seq<nat>) returns (password: string)
    requires Picks(AlphabetOf, picks) && |picks| == (if length < 4 then 4 else length) && Draws(partners, |picks|)
    ensures password == Generated(AlphabetOf, picks, partners) && Strong(password, length)
  {
    var seeded := Seed(length, picks);
    password := Scatter(seeded, partners);
    AlphabetsHaveClasses();
    GeneratedIsStrong(AlphabetOf, length, picks, partners);
  }

  /** The first four alphabets are of the four classes, and none holds anything strange. */
  ghost predicate HaveClasses(abc: Alphabets) {
    && (forall c :: c in abc(0) ==> IsLower(c)) && (forall c :: c in abc(1) ==> IsUpper(c))
    && (forall c :: c in abc(2) ==> IsDigit(c)) && (forall c :: c in abc(3) ==> IsSpecial(c))
    && forall k: nat, c :: c in abc(k) ==> Typeable(c)
  }

  lemma AlphabetsHaveClasses()
    ensures HaveClasses(AlphabetOf)
  {
    forall c | c in LOWER ensures IsLower(c) {
      LowerAlphabet(c);
    }
    forall c | c in UPPER ensures IsUpper(c) {
      UpperAlphabet(c);
    }
    forall c | c in DIGITS ensures IsDigit(c) {
      DigitAlphabet(c);
    }
    forall c | c in SYMBOLS ensures IsSpecial(c) && Typeable(c) {
      SymbolAlphabet(c);
    }
    forall c | c in ALL ensures Typeable(c) {
      AllAlphabet(c);
    }
  }

  lemma GeneratedIsStrong(abc: Alphabets, length: int, picks: seq<nat>, partners: seq<nat>)
    requires HaveClasses(abc) && Picks(abc, picks)
    requires |picks| == (if length < 4 then 4 else length) && Draws(partners, |picks|)
    ensures Strong(Generated(abc, picks, partners), length)
  {
    var s := Seeded(abc, picks);
    forall k | 0 <= k < |s| ensures s[k] in abc(k) {
    }
    ShufflePermutes(s, partners, |s| - 1);
    PermutedIsTypeable(s, Generated(abc, picks, partners));
  }

  lemma PermutedIsTypeable(s: string, p: string)
    requires multiset(p) == multiset(s) && |s| >= 4 && forall k :: 0 <= k < |s| ==> Typeable(s[k])
    requires IsLower(s[0]) && IsUpper(s[1]) && IsDigit(s[2]) && IsSpecial(s[3])
    ensures |p| == |s| && (forall c :: c in p ==> Typeable(c)) && (Accepted(p) <==> |p| >= 8)
  {
    SameMembers(p, s);
    AllClasses(p, s[0], s[1], s[2], s[3]);
  }

  // ----- what can be generated -----

  /** Characters that can be drawn one after the other. */
  ghost predicate Drawable(abc: Alphabets, t: string) {
    |t| >= 4 && forall k :: 0 <= k < |t| ==> t[k] in abc(k)
  }

  ghost predicate Draw(abc: Alphabets, picks: seq<nat>, partners: seq<nat>, p: string) {
    Picks(abc, picks) && Draws(partners, |picks|) && Generated(abc, picks, partners) == p
  }

  /** A permutation of `p` that can be drawn. */
  ghost predicate Arranges(abc: Alphabets, p: string, t: string) { multiset(t) == multiset(p) && Drawable(abc, t) }

  lemma DrawnExactly(abc: Alphabets, p: string)
    ensures (exists picks, partners :: Draw(abc, picks, partners, p)) <==> exists t :: Arranges(abc, p, t)
  {
    if picks, partners :| Draw(abc, picks, partners, p) {
      ShufflePermutes(Seeded(abc, picks), partners, |picks| - 1);
      assert Arranges(abc, p, Seeded(abc, picks));
    }
    if t :| Arranges(abc, p, t) {
      var picks := PicksFor(abc, t);
      var partners := PartnersFor(t, p);
      assert Draw(abc, picks, partners, p);
    }
  }

  lemma PartnersFor(t: string, p: string) returns (partners: seq<nat>)
    requires t != "" && multiset(t) == multiset(p)
    ensures Draws(partners, |t|) && Shuffled(t, partners, |t| - 1) == p
  {
    assert |multiset(t)| == |t| && |multiset(p)| == |p|;
    assert t[..|t|] == t && p[..|p|] == p && t[|t|..] == p[|p|..];
    partners := ShuffleReachesAll(t, p, |t| - 1);
  }

  lemma PicksFor(abc: Alphabets, t: string) returns (picks: seq<nat>)
    requires Drawable(abc, t)
    ensures Picks(abc, picks) && Seeded(abc, picks) == t
  {
    picks := [];
    while |picks| < |t|
      invariant |picks| <= |t|
      invariant forall k :: 0 <= k < |picks| ==> picks[k] < |abc(k)| && abc(k)[picks[k]] == t[k]
    {
      var a := abc(|picks|);
      var j: nat :| j < |a| && a[j] == t[|picks|];
      picks := picks + [j];
    }
  }

  /** A letter of either kind, a digit and a symbol, and then characters of any of the four alphabets. */
  ghost predicate FourFirst(t: string) {
    && |t| >= 4 && t[0] in LOWER && t[1] in UPPER && t[2] in DIGITS && t[3] in SYMBOLS
    && forall k :: 4 <= k < |t| ==> t[k] in LOWER + UPPER + DIGITS + SYMBOLS
  }

  lemma DrawableExactly(t: string)
    ensures Drawable(AlphabetOf, t) <==> FourFirst(t)
  {
    if Drawable(AlphabetOf, t) {
      assert t[0] in AlphabetOf(0) && t[1] in AlphabetOf(1) && t[2] in AlphabetOf(2) && t[3] in AlphabetOf(3);
      assert forall k :: 4 <= k < |t| ==> t[k] in AlphabetOf(k);
    }
  }

  /** What can be generated: exactly the passwords with a character of each class and no others than theirs. */
  lemma GeneratedExactly(p: string)
    ensures (exists picks, partners :: Draw(AlphabetOf, picks, partners, p)) <==>
            exists t :: multiset(t) == multiset(p) && FourFirst(t)
  {
    DrawnExactly(AlphabetOf, p);
    if t :| Arranges(AlphabetOf, p, t) {
      DrawableExactly(t);
    }
    if t :| multiset(t) == multiset(p) && FourFirst(t) {
      DrawableExactly(t);
      assert Arranges(AlphabetOf, p, t);
    }
  }

  lemma SameMembers(a: string, b: string)
    requires multiset(a) == multiset(b)
    ensures |a| == |b| && forall c :: c in a <==> c in b
  {
    assert |multiset(a)| == |multiset(b)|;
    assert forall c :: c in a <==> c in multiset(a);
    assert forall c :: c in b <==> c in multiset(b);
  }

  lemma AllClasses(p: string, l: char, u: char, d: char, s: char)
    requires l in p && u in p && d in p && s in p
    requires IsLower(l) && IsUpper(u) && IsDigit(d) && IsSpecial(s)
    requires forall c :: c in p ==> Typeable(c)
    ensures Accepted(p) <==> |p| >= 8
  {
    forall c | c in p ensures !IsSpace(c) {
      TypeableIsPlain(c);
    }
  }

  /**
   A generated password never shows: neither on screen nor in the prompt, whatever the text and whatever
   service key stands beside it.
   */
  lemma GeneratedPasswordNeverShows(text: string, serviceKey: Option<string>, password: string)
    requires Accepted(password) && forall c :: c in password ==> Typeable(c)
    ensures !Occurs(password, Secrets.HideSecrets(text, serviceKey, Some(password)))
    ensures !Occurs(password, Secrets.PromptText(text, serviceKey, Some(password)))
  {
    forall c | c in password ensures c != '<' && c != '>' && c != Secrets.BULLET {
      TypeableIsPlain(c);
    }
    NotAPlaceholder(password);
    Secrets.PromptComplete(text, serviceKey, Some(password), password);
    Secrets.HideSecretsComplete(text, serviceKey, Some(password), password);
  }

  lemma AcceptedBy(p: string, l: char, u: char, d: char, s: char)
    requires |p| >= 8 && l in p && u in p && d in p && s in p && forall c :: c in p ==> !IsSpace(c)
    requires IsLower(l) && IsUpper(u) && IsDigit(d) && IsSpecial(s)
    ensures Accepted(p)
  {
  }

  /**
   A password of one's own choice may show: the validator accepts eight bullets and `aA1`, the mask does not
   hide it.
   */
  lemma AcceptedMayShow() returns (password: string, text: string)
    ensures Accepted(password) && Secrets.ScreenShows(text, None, password)
  {
    var b := Secrets.BULLET;
    password := [b, b, b, b, b, b, b, b, 'a', 'A', '1'];
    assert b in password && 'a' in password && 'A' in password && '1' in password;
    AcceptedBy(password, 'a', 'A', '1', b);
    text := Secrets.BulletFirstIsShown(None, password);
  }

  /** An accepted password holds an upper-case letter, the placeholders hold none. */
  lemma NotAPlaceholder(password: string)
    requires Accepted(password)
    ensures !Occurs(password, "your-secret-key") && !Occurs(password, "db-password")
  {
    var c :| c in password && IsUpper(c);
    if Occurs(password, "your-secret-key") {
      CharOccurs(password, "your-secret-key", c);
    }
    if Occurs(password, "db-password") {
      CharOccurs(password, "db-password", c);
    }
  }
}
