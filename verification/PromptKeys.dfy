/** When the prompt shows the service key: the placeholders of both secrets, and what the one makes of the other. */
module PromptKeys {
  import opened Options
  import opened Overlap
  import opened Secrets
  import opened Text

  const KEY_PLACEHOLDER := "<" + KEY_WORDING + ">"
  const PASSWORD_PLACEHOLDER := "<" + PASSWORD_WORDING + ">"

  ghost predicate KeyShows(text: string, key: string, password: Option<string>) {
    Occurs(key, PromptText(text, Some(key), password))
  }

  /** The password is masked too, and apart from the key. */
  predicate MaskedToo(key: string, password: Option<string>) {
    password.Some? && |password.value| >= 8 && password.value != key
  }

  /** What masking the password makes of the placeholder of the key. */
  function RemaskedPlaceholder(password: string): string
    requires |password| >= 8
  {
    ReplaceAll(KEY_PLACEHOLDER, password, PASSWORD_PLACEHOLDER)
  }

  /** When a prompt can show a service key without angle brackets. */
  ghost predicate KeyLeaks(key: string, password: Option<string>) {
    if MaskedToo(key, password) then
      || (Occurs(key, PASSWORD_WORDING) && !Occurs(key, password.value))
      || Occurs(key, RemaskedPlaceholder(password.value))
    else Occurs(key, KEY_WORDING)
  }

  // ----- replacing piece by piece -----

  /** No `s` stands across the joint of `u` and `v`. */
  ghost predicate Parted(u: string, v: string, s: string) {
    forall q {:trigger OccursAt(s, u + v, q)} :: q < |u| < q + |s| ==> !OccursAt(s, u + v, q)
  }

  lemma PartedRest(u: string, v: string, s: string, n: nat)
    requires n <= |u| && Parted(u, v, s)
    ensures Parted(u[n..], v, s)
  {
    var rest := u[n..];
    assert u + v == u[..n] + (rest + v);
    forall q | 0 <= q < |rest| < q + |s| ensures !OccursAt(s, rest + v, q) {
      OccursRight(u[..n], rest + v, s, q);
      assert !OccursAt(s, u + v, n + q);
    }
  }

  lemma ReplaceFirst(t: string, s: string, r: string, k: nat, head: string, rest: string)
    requires s != "" && IndexOf(s, t, 0) == k && head == t[..k] && rest == t[k + |s|..]
    ensures ReplaceAll(t, s, r) == head + r + ReplaceAll(rest, s, r)
  {
  }

  lemma FirstInFront(u: string, v: string, s: string, j: nat)
    requires IndexOf(s, u, 0) == j
    ensures IndexOf(s, u + v, 0) == j
  {
    IndexOfIsFirst(s, u, 0);
    OccursLeft(u, v, s, j);
    forall e | 0 <= e < j ensures !OccursAt(s, u + v, e) {
      OccursLeft(u, v, s, e);
    }
    FoundAt(s, u + v, j);
  }

  /** Nothing is found in `u`, so the search goes on in `v`. */
  lemma FirstBehind(u: string, v: string, s: string)
    requires s != "" && Parted(u, v, s) && IndexOf(s, u, 0) == -1
    ensures var k := IndexOf(s, v, 0); IndexOf(s, u + v, 0) == if k == -1 then -1 else |u| + k
  {
    IndexOfIsFirst(s, u, 0);
    IndexOfIsFirst(s, v, 0);
    IndexOfIsFirst(s, u + v, 0);
    var k, f := IndexOf(s, v, 0), IndexOf(s, u + v, 0);
    if f != -1 {
      if f < |u| {
        assert f + |s| <= |u|;
        OccursLeft(u, v, s, f);
      }
      OccursRight(u, v, s, f - |u|);
    }
    if k != -1 {
      OccursRight(u, v, s, k);
    }
  }

  lemma CutBehind(u: string, v: string, k: nat, n: nat)
    requires k + n <= |v|
    ensures (u + v)[..|u| + k] == u + v[..k] && (u + v)[|u| + k + n..] == v[k + n..]
  {
  }

  lemma RegroupFour(a: string, b: string, c: string, d: string)
    ensures a + b + c + d == a + (b + c + d)
  {
  }

  lemma ReplaceAtSame(t: string, u: string, v: string, s: string, r: string, i: nat, k: nat, head: string, rest: string)
    requires s != "" && IndexOf(s, t, 0) == i && IndexOf(s, v, 0) == k
    requires t[..i] == u + head && t[i + |s|..] == rest && v[..k] == head && v[k + |s|..] == rest
    ensures ReplaceAll(t, s, r) == u + ReplaceAll(v, s, r)
  {
    ReplaceFirst(t, s, r, i, u + head, rest);
    ReplaceFirst(v, s, r, k, head, rest);
    RegroupFour(u, head, r, ReplaceAll(rest, s, r));
  }

  lemma ReplaceBehind(u: string, v: string, s: string, r: string)
    requires s != "" && Parted(u, v, s) && IndexOf(s, u, 0) == -1
    ensures ReplaceAll(u + v, s, r) == ReplaceAll(u, s, r) + ReplaceAll(v, s, r)
  {
    FirstBehind(u, v, s);
    NotFound(s, u);
    NothingToReplace(u, s, r);
    var k := IndexOf(s, v, 0);
    if k != -1 {
      CutBehind(u, v, k, |s|);
      ReplaceAtSame(u + v, u, v, s, r, |u| + k, k, v[..k], v[k + |s|..]);
    }
  }

  lemma CutInFront(u: string, v: string, j: nat, n: nat)
    requires j + n <= |u|
    ensures (u + v)[..j] == u[..j] && (u + v)[j + n..] == u[j + n..] + v
  {
  }

  lemma ReplaceInFront(t: string, u: string, v: string, s: string, r: string, j: nat, head: string, rest: string)
    requires s != "" && IndexOf(s, t, 0) == j && IndexOf(s, u, 0) == j
    requires t[..j] == u[..j] == head && t[j + |s|..] == rest + v && u[j + |s|..] == rest
    requires ReplaceAll(rest + v, s, r) == ReplaceAll(rest, s, r) + ReplaceAll(v, s, r)
    ensures ReplaceAll(t, s, r) == ReplaceAll(u, s, r) + ReplaceAll(v, s, r)
  {
    ReplaceFirst(t, s, r, j, head, rest + v);
    ReplaceFirst(u, s, r, j, head, rest);
    Regroup(head + r, ReplaceAll(rest, s, r), ReplaceAll(v, s, r));
  }

  /** What does not stand across a joint is replaced on either side of it apart. */
  lemma {:induction false} ReplaceParted(u: string, v: string, s: string, r: string)
    requires s != "" && Parted(u, v, s)
    ensures ReplaceAll(u + v, s, r) == ReplaceAll(u, s, r) + ReplaceAll(v, s, r)
    decreases |u|
  {
    var j := IndexOf(s, u, 0);
    if j == -1 {
      ReplaceBehind(u, v, s, r);
    } else {
      var rest := u[j + |s|..];
      FirstInFront(u, v, s, j);
      PartedRest(u, v, s, j + |s|);
      ReplaceParted(rest, v, s, r);
      CutInFront(u, v, j, |s|);
      ReplaceInFront(u + v, u, v, s, r, j, u[..j], rest);
    }
  }

  // ----- a string between brackets -----

  /** `h` begins and ends with characters that `s` holds, if at all, only at its beginning and its end. */
  predicate Brackets(h: string, s: string) {
    && h != ""
    && (forall i :: 0 < i < |s| ==> s[i] != h[0])
    && forall i :: 0 <= i < |s| - 1 ==> s[i] != h[|h| - 1]
  }

  /** Such an `s` does not reach beyond `h`. */
  lemma ReplaceAround(before: string, h: string, after: string, s: string, r: string)
    requires s != "" && Brackets(h, s)
    ensures ReplaceAll(before + h + after, s, r)
            == ReplaceAll(before, s, r) + ReplaceAll(h, s, r) + ReplaceAll(after, s, r)
  {
    forall q | q < |before| < q + |s| ensures !OccursAt(s, before + (h + after), q) {
      var c := s[|before| - q];
      assert c != h[0] == (before + (h + after))[|before|];
      if OccursAt(s, before + (h + after), q) {
        OccursChars(s, before + (h + after), q);
      }
    }
    forall q | q < |h| < q + |s| ensures !OccursAt(s, h + after, q) {
      if OccursAt(s, h + after, q) {
        var c := s[|h| - 1 - q];
        assert c != h[|h| - 1] == (h + after)[|h| - 1];
        OccursChars(s, h + after, q);
      }
    }
    ReplaceParted(before, h + after, s, r);
    ReplaceParted(h, after, s, r);
    Regroup(before, h, after);
    Regroup(ReplaceAll(before, s, r), ReplaceAll(h, s, r), ReplaceAll(after, s, r));
  }

  /** A text that begins and ends as what is put into it still does so afterwards. */
  lemma {:induction false} ReplaceKeepsEnds(t: string, s: string, r: string)
    requires s != "" && t != "" && r != ""
    ensures var out := ReplaceAll(t, s, r);
            && out != "" && (t[0] == r[0] ==> out[0] == r[0])
            && (t[|t| - 1] == r[|r| - 1] ==> out[|out| - 1] == r[|r| - 1])
    decreases |t|
  {
    var k := IndexOf(s, t, 0);
    if k != -1 {
      var rest := t[k + |s|..];
      ReplaceFirst(t, s, r, k, t[..k], rest);
      if rest != "" {
        ReplaceKeepsEnds(rest, s, r);
      } else {
        NothingToReplace(rest, s, r);
      }
    }
  }

  /** What stands neither before `m`, nor in it, nor behind, and holds neither of its ends, stands nowhere. */
  lemma NotAround(x: string, before: string, m: string, after: string)
    requires m != "" && m[0] !in x && m[|m| - 1] !in x
    requires !Occurs(x, before) && !Occurs(x, m) && !Occurs(x, after)
    ensures !Occurs(x, before + m + after)
  {
    var tail := m[1..];
    assert before + m + after == before + [m[0]] + (tail + after);
    if Occurs(x, before + m + after) {
      Barrier(x, before, m[0], tail + after);
      NotInTail(x, m, after);
    }
  }

  lemma NotInTail(x: string, m: string, after: string)
    requires m != "" && m[|m| - 1] !in x && !Occurs(x, m) && !Occurs(x, after)
    ensures !Occurs(x, m[1..] + after)
  {
    if |m| == 1 {
      assert m[1..] + after == after;
    } else {
      var mid, c := m[1..|m| - 1], m[|m| - 1];
      assert m == [m[0]] + mid + [c] && m[1..] + after == mid + [c] + after;
      if Occurs(x, mid) {
        OccursInPart(x, [m[0]], mid, [c]);
      }
      if Occurs(x, mid + [c] + after) {
        Barrier(x, mid, c, after);
      }
    }
  }

  /**
   `x` is replaced by `h`, then `s`, which does not reach beyond `h`, by a shield with the ends of `h`: `x` is left
   nowhere unless it is left in what the second replacement makes of `h`.
   */
  lemma {:induction false} TwiceReplaced(t: string, x: string, h: string, s: string, shape: Shape)
    requires x != "" && s != "" && Brackets(h, s)
    requires shape.kept == "" && Shields(shape, x) && h[0] == shape.open && h[|h| - 1] == shape.close
    requires !Occurs(x, ReplaceAll(h, s, shape.Text()))
    ensures !Occurs(x, ReplaceAll(ReplaceAll(t, x, h), s, shape.Text()))
    decreases |t|
  {
    var r := shape.Text();
    var k := IndexOf(x, t, 0);
    if k == -1 {
      NotFound(x, t);
      ReplaceShields(x, t, s, shape);
    } else {
      var before, rest := t[..k], t[k + |x|..];
      BeforeIsFree(x, t, k);
      ReplaceShields(x, before, s, shape);
      TwiceReplaced(rest, x, h, s, shape);
      ReplaceAround(before, h, ReplaceAll(rest, x, h), s, r);
      ReplaceKeepsEnds(h, s, r);
      NotAround(x, ReplaceAll(before, s, r), ReplaceAll(h, s, r), ReplaceAll(ReplaceAll(rest, x, h), s, r));
    }
  }

  lemma BeforeIsFree(x: string, t: string, k: nat)
    requires x != "" && IndexOf(x, t, 0) == k
    ensures !Occurs(x, t[..k])
  {
    HeadIsFree(x, t, x, "", k);
    assert t[..k] + "" == t[..k];
  }

  // ----- exactly when -----

  /** Both masks, one after the other. */
  function BothMasks(text: string, key: string, password: string): string
    requires key != "" && password != ""
  {
    ReplaceAll(ReplaceAll(text, key, KEY_PLACEHOLDER), password, PASSWORD_PLACEHOLDER)
  }

  lemma PromptIsBothMasks(text: string, key: string, password: string)
    requires |key| >= 8 && |password| >= 8 && key != password
    ensures PromptText(text, Some(key), Some(password)) == BothMasks(text, key, password)
  {
    var mask := (s: string) => Placeholder(Some(key), s);
    assert Active(Some(key), Some(password)) == [key, password];
    PasswordPlaceholder(Some(key), password);
    assert mask(key).Text() == KEY_PLACEHOLDER && mask(password).Text() == PASSWORD_PLACEHOLDER;
    MaskAllTwo(text, key, password, mask);
  }

  /** A string in the placeholder of the key holds its brackets at its ends only. */
  lemma BracketsAtEnds(s: string)
    requires Occurs(s, KEY_PLACEHOLDER)
    ensures Brackets(KEY_PLACEHOLDER, s)
  {
    var h := KEY_PLACEHOLDER;
    assert forall j :: 0 < j < |h| ==> h[j] != '<';
    assert forall j :: 0 <= j < |h| - 1 ==> h[j] != '>';
    var k :| OccursAt(s, h, k);
    OccursChars(s, h, k);
    assert forall i :: 0 <= i < |s| ==> s[i] == h[k + i];
  }

  /** A password inside the key's placeholder: the key shows only where it does in what is made of the placeholder. */
  lemma RemaskedHides(text: string, key: string, password: string)
    requires |key| >= 8 && |password| >= 8 && Unbracketed(key) && !Occurs(key, PASSWORD_WORDING)
    requires Occurs(password, KEY_PLACEHOLDER) && !Occurs(key, RemaskedPlaceholder(password))
    ensures !Occurs(key, BothMasks(text, key, password))
  {
    var shape := Shape("", '<', PASSWORD_WORDING, '>');
    assert shape.Text() == PASSWORD_PLACEHOLDER;
    BracketsAtEnds(password);
    TwiceReplaced(text, key, KEY_PLACEHOLDER, password, shape);
  }

  /** A key that stands in a wording shows: by itself, or through the password. */
  lemma KeyLeakIsShown(key: string, password: Option<string>) returns (text: string)
    requires |key| >= 8 && Unbracketed(key) && KeyLeaks(key, password)
    ensures KeyShows(text, key, password)
  {
    text := key;
    if !MaskedToo(key, password) {
      AloneIsShown(key, password);
    } else {
      var p := password.value;
      if Occurs(key, RemaskedPlaceholder(p)) {
        ReplaceWhole(key, KEY_PLACEHOLDER);
      } else {
        text := p;
        NothingToReplace(p, key, KEY_PLACEHOLDER);
        ReplaceWhole(p, PASSWORD_PLACEHOLDER);
        OccursInPart(key, "<", PASSWORD_WORDING, ">");
      }
      PromptIsBothMasks(text, key, p);
    }
  }

  /** Without another secret only the key is masked. */
  lemma PromptIsOneMask(text: string, key: string, password: Option<string>)
    requires |key| >= 8 && !MaskedToo(key, password) && password != Some(key)
    ensures PromptText(text, Some(key), password) == ReplaceAll(text, key, KEY_PLACEHOLDER)
  {
    var mask := (s: string) => Placeholder(Some(key), s);
    assert Active(Some(key), password) == [key];
    assert mask(key).Text() == KEY_PLACEHOLDER;
    MaskAllOne(text, key, mask);
    SplitJoinReplaces(text, key, KEY_PLACEHOLDER);
  }

  lemma AloneIsShown(key: string, password: Option<string>)
    requires |key| >= 8 && !MaskedToo(key, password) && Occurs(key, KEY_WORDING)
    ensures KeyShows(key, key, password)
  {
    if password == Some(key) {
      LeakIsShown(Some(key), key);
    } else {
      PromptIsOneMask(key, key, password);
      ReplaceWhole(key, KEY_PLACEHOLDER);
      OccursInPart(key, "<", KEY_WORDING, ">");
    }
  }

  lemma ShownKeyLeaks(text: string, key: string, password: Option<string>)
    requires |key| >= 8 && Unbracketed(key) && KeyShows(text, key, password)
    ensures KeyLeaks(key, password)
  {
    if !MaskedToo(key, password) || (!Occurs(key, KEY_WORDING) && !Occurs(key, PASSWORD_WORDING)) {
      if !Occurs(key, KEY_WORDING) {
        PromptComplete(text, Some(key), password, key);
      }
    } else {
      PromptIsBothMasks(text, key, password.value);
      if Occurs(key, PASSWORD_WORDING) {
        ThroughThePassword(text, key, password.value);
      } else {
        ThroughTheKey(text, key, password.value);
      }
    }
  }

  /** A key from the password's wording shows only if the password is still there when its turn comes. */
  lemma ThroughThePassword(text: string, key: string, password: string)
    requires |key| >= 8 && |password| >= 8 && Unbracketed(key) && Occurs(key, PASSWORD_WORDING)
    requires Occurs(key, BothMasks(text, key, password))
    ensures !Occurs(key, password)
  {
    if Occurs(key, password) {
      assert OccursAt(key, key, 0);
      KeysApart(key, key);
      var once := ReplaceAll(text, key, KEY_PLACEHOLDER);
      var shape := Shape("", '<', KEY_WORDING, '>');
      assert shape.Text() == KEY_PLACEHOLDER;
      ReplaceShields(key, text, key, shape);
      if Occurs(password, once) {
        OccursTrans(key, password, once);
      }
      NothingToReplace(once, password, PASSWORD_PLACEHOLDER);
    }
  }

  lemma ThroughTheKey(text: string, key: string, password: string)
    requires |key| >= 8 && |password| >= 8 && Unbracketed(key)
    requires Occurs(key, KEY_WORDING) && !Occurs(key, PASSWORD_WORDING)
    requires Occurs(key, BothMasks(text, key, password))
    ensures Occurs(key, RemaskedPlaceholder(password))
  {
    if Occurs(password, KEY_PLACEHOLDER) {
      if !Occurs(key, RemaskedPlaceholder(password)) {
        RemaskedHides(text, key, password);
      }
    } else {
      NothingToReplace(KEY_PLACEHOLDER, password, PASSWORD_PLACEHOLDER);
      OccursInPart(key, "<", KEY_WORDING, ">");
    }
  }

  /**
   For every password: some prompt shows a service key without angle brackets if and only if, the password being
   masked too, the password's wording holds the key and the password does not, or what masking the password makes of
   the key's placeholder holds it; and otherwise if and only if the key's own wording does.
   */
  lemma KeyLeaksExactly(key: string, password: Option<string>)
    requires |key| >= 8 && Unbracketed(key)
    ensures (exists text :: KeyShows(text, key, password)) <==> KeyLeaks(key, password)
  {
    if KeyLeaks(key, password) {
      var text := KeyLeakIsShown(key, password);
      assert KeyShows(text, key, password);
    }
    if text :| KeyShows(text, key, password) {
      ShownKeyLeaks(text, key, password);
    }
  }

  /** What stands in the prompt for secrets that are masked: for the service key, and then for the password. */
  lemma PromptReads(text: string, key: string, password: string)
    requires |key| >= 8 && |password| >= 8 && key != password
    ensures PromptText(text, Some(key), None) == Join(Split(text, key), "<your-secret-key>")
    ensures PromptText(text, None, Some(password)) == Join(Split(text, password), "<db-password>")
    ensures PromptText(text, Some(key), Some(password))
            == Join(Split(Join(Split(text, key), "<your-secret-key>"), password), "<db-password>")
  {
    assert KEY_PLACEHOLDER == "<your-secret-key>" && PASSWORD_PLACEHOLDER == "<db-password>";
    PromptIsOneMask(text, key, None);
    PromptIsBothMasks(text, key, password);
    PasswordAlone(text, password);
    SplitJoinReplaces(text, key, KEY_PLACEHOLDER);
    SplitJoinReplaces(Join(Split(text, key), KEY_PLACEHOLDER), password, PASSWORD_PLACEHOLDER);
  }

  lemma PasswordAlone(text: string, password: string)
    requires |password| >= 8
    ensures PromptText(text, None, Some(password)) == Join(Split(text, password), PASSWORD_PLACEHOLDER)
  {
    var mask := (s: string) => Placeholder(None, s);
    assert Active(None, Some(password)) == [password];
    PasswordPlaceholder(None, password);
    assert mask(password).Text() == PASSWORD_PLACEHOLDER;
    MaskAllOne(text, password, mask);
  }
}
