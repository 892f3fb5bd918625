/**
 The two masking folds of `connection-strings.tsx`: `hideSecrets` for what is shown on screen and the
 placeholder fold for the prompt that leaves the product.
 */
module Secrets {
  import opened Options
  import opened Text
  import opened Overlap

  /**
   A replacement for a secret: a kept prefix, then a stretch that begins with `open` and ends with
   `close`.
   */
  datatype Shape = Shape(kept: string, open: char, mid: string, close: char) {
    function Text(): string { kept + [open] + mid + [close] }
  }

  const BULLET: char := '\U{2022}'

  /** `${secret.slice(0, 6)}••••••••` */
  function BulletMask(secret: string): Shape {
    var b := BULLET;
    Shape(if |secret| <= 6 then secret else secret[..6], b, [b, b, b, b, b, b], b)
  }

  const KEY_WORDING := "your-secret-key"
  const PASSWORD_WORDING := "db-password"

  /** The placeholder that stands for a secret in the prompt. */
  function Placeholder(serviceKey: Option<string>, secret: string): Shape {
    if serviceKey == Some(secret) then Shape("", '<', KEY_WORDING, '>') else Shape("", '<', PASSWORD_WORDING, '>')
  }

  /** `[serviceKey, password].filter(secret => !!secret && secret.length >= 8)` */
  function Active(serviceKey: Option<string>, password: Option<string>): (secrets: seq<string>)
    ensures forall s :: s in secrets <==> |s| >= 8 && (serviceKey == Some(s) || password == Some(s))
  {
    (if serviceKey.Some? && |serviceKey.value| >= 8 then [serviceKey.value] else [])
    + (if password.Some? && |password.value| >= 8 then [password.value] else [])
  }

  /** `secrets.reduce((out, secret) => out.split(secret).join(mask(secret)), text)` */
  function MaskAll(text: string, secrets: seq<string>, mask: string -> Shape): string
    requires "" !in secrets
    decreases |secrets|
  {
    if secrets == [] then text
    else MaskAll(Join(Split(text, secrets[0]), mask(secrets[0]).Text()), secrets[1..], mask)
  }

  function HideSecrets(text: string, serviceKey: Option<string>, password: Option<string>): string {
    MaskAll(text, Active(serviceKey, password), BulletMask)
  }

  function PromptText(text: string, serviceKey: Option<string>, password: Option<string>): string {
    MaskAll(text, Active(serviceKey, password), (s: string) => Placeholder(serviceKey, s))
  }

  /** `shape` cannot help `x` to come into being: its outer characters are foreign to `x`, its middle is free of `x`. */
  ghost predicate Shields(shape: Shape, x: string) {
    shape.open !in x && shape.close !in x && !Occurs(x, shape.mid)
  }

  /** `shape` keeps a proper prefix of the secret it replaces. */
  ghost predicate Keeps(shape: Shape, secret: string) {
    |shape.kept| < |secret| && shape.kept == secret[..|shape.kept|]
  }

  /**
   Replacing `s` by a shield neither leaves `s` in the text nor brings a string into being that the text
   did not hold: neither inside the replacement, nor across its ends, nor through the kept prefix.
   */
  lemma {:induction false} ReplaceShields(x: string, t: string, s: string, shape: Shape)
    requires s != "" && Keeps(shape, s) && x != "" && Shields(shape, x)
    requires x == s || !Occurs(x, t)
    ensures !Occurs(x, ReplaceAll(t, s, shape.Text()))
    decreases |t|
  {
    var r := shape.Text();
    var k := IndexOf(s, t, 0);
    if k == -1 {
      NotFound(s, t);
    } else {
      var rest := t[k + |s|..];
      if x != s {
        SuffixFree(x, t, k + |s|);
      }
      ReplaceShields(x, rest, s, shape);
      HeadIsFree(x, t, s, shape.kept, k);
      ShieldSeparates(x, t[..k], shape, ReplaceAll(rest, s, r));
    }
  }

  /** A string that stands neither before a shield nor behind it does not stand around it. */
  lemma ShieldSeparates(x: string, before: string, shape: Shape, tail: string)
    requires Shields(shape, x) && !Occurs(x, before + shape.kept) && !Occurs(x, tail)
    ensures !Occurs(x, before + shape.Text() + tail)
  {
    var behind := shape.mid + [shape.close] + tail;
    assert before + shape.Text() + tail == (before + shape.kept) + [shape.open] + behind;
    if Occurs(x, before + shape.Text() + tail) {
      Barrier(x, before + shape.kept, shape.open, behind);
      Barrier(x, shape.mid, shape.close, tail);
    }
  }

  /** What stands before the first occurrence, together with a proper prefix of it, holds nothing new. */
  lemma HeadIsFree(x: string, t: string, s: string, kept: string, k: nat)
    requires IndexOf(s, t, 0) == k
    requires |kept| < |s| && kept == s[..|kept|]
    requires x == s || !Occurs(x, t)
    ensures !Occurs(x, t[..k] + kept)
  {
    var head := t[..k] + kept;
    IndexOfIsFirst(s, t, 0);
    forall j | OccursAt(x, head, j) ensures false {
      assert head == t[..k + |kept|] by {
        assert t[k..k + |kept|] == t[k..k + |s|][..|kept|];
      }
      assert head[j..j + |x|] == t[j..j + |x|];
      assert OccursAt(x, t, j);
    }
  }

  lemma MaskAllOne(text: string, secret: string, mask: string -> Shape)
    requires secret != ""
    ensures MaskAll(text, [secret], mask) == Join(Split(text, secret), mask(secret).Text())
    ensures text == secret ==> MaskAll(text, [secret], mask) == mask(secret).Text()
  {
    assert [secret][1..] == [];
    assert "" !in [secret];
    SplitJoinReplaces(text, secret, mask(secret).Text());
    ReplaceWhole(secret, mask(secret).Text());
  }

  /** After the whole fold no secret is left, whatever the order and however the secrets overlap. */
  lemma {:induction false} MaskAllComplete(text: string, secrets: seq<string>, mask: string -> Shape, x: string)
    requires "" !in secrets && x != ""
    requires forall s :: s in secrets ==> Keeps(mask(s), s) && Shields(mask(s), x)
    requires x in secrets || !Occurs(x, text)
    ensures !Occurs(x, MaskAll(text, secrets, mask))
    decreases |secrets|
  {
    if secrets != [] {
      var s := secrets[0];
      var out := Join(Split(text, s), mask(s).Text());
      SplitJoinReplaces(text, s, mask(s).Text());
      if x == s || !Occurs(x, text) {
        ReplaceShields(x, text, s, mask(s));
      }
      MaskAllComplete(out, secrets[1..], mask, x);
    }
  }

  /** What is shown on screen holds no masked secret that holds no bullet, whatever the other secret holds. */
  lemma HideSecretsComplete(text: string, serviceKey: Option<string>, password: Option<string>, x: string)
    requires x in Active(serviceKey, password)
    requires BULLET !in x
    ensures !Occurs(x, HideSecrets(text, serviceKey, password))
  {
    forall s | s in Active(serviceKey, password) ensures Keeps(BulletMask(s), s) && Shields(BulletMask(s), x) {
      var mid := BulletMask(s).mid;
      assert forall k :: OccursAt(x, mid, k) ==> |x| <= 6;
    }
    MaskAllComplete(text, Active(serviceKey, password), BulletMask, x);
  }

  /** The last secret of the fold is masked for good: what the masks before it did is just another text. */
  lemma {:induction false} LastMask(text: string, secrets: seq<string>, mask: string -> Shape)
    returns (before: string)
    requires secrets != [] && "" !in secrets
    ensures var s := secrets[|secrets| - 1]; MaskAll(text, secrets, mask) == ReplaceAll(before, s, mask(s).Text())
    decreases |secrets|
  {
    var s := secrets[0];
    SplitJoinReplaces(text, s, mask(s).Text());
    var out := Join(Split(text, s), mask(s).Text());
    if |secrets| == 1 {
      before := text;
      assert secrets[1..] == [];
    } else {
      before := LastMask(out, secrets[1..], mask);
    }
  }

  lemma ShapeBegins(s: string, shape: Shape)
    requires Keeps(shape, s)
    ensures Begins(s, shape.Text(), |shape.kept|)
  {
    assert shape.Text()[..|shape.kept|] == shape.kept;
  }

  /** A last secret that does not overlap its own mask is left nowhere, whatever the other secrets are. */
  lemma LastIsHidden(text: string, secrets: seq<string>, mask: string -> Shape, x: string)
    requires secrets != [] && "" !in secrets && x == secrets[|secrets| - 1] && Keeps(mask(x), x)
    requires !Overlaps(x, mask(x).Text(), |mask(x).kept|)
    ensures !Occurs(x, MaskAll(text, secrets, mask))
  {
    var before := LastMask(text, secrets, mask);
    ShapeBegins(x, mask(x));
    ShowsExactly(x, mask(x).Text(), |mask(x).kept|);
    assert !StillHolds(before, x, mask(x).Text());
  }

  /** An only secret that overlaps its own mask is left in some text. */
  lemma OnlySecretIsShown(x: string, mask: string -> Shape) returns (text: string)
    requires x != "" && Keeps(mask(x), x) && Overlaps(x, mask(x).Text(), |mask(x).kept|)
    ensures Occurs(x, MaskAll(text, [x], mask))
  {
    var r, kept := mask(x).Text(), |mask(x).kept|;
    var d :| -|x| < d < |r| && OverlapsAt(x, r, kept, d);
    text := OverlapIsShown(x, r, kept, d);
    MaskAllOne(text, x, mask);
    SplitJoinReplaces(text, x, r);
  }

  // ----- the screen -----

  ghost predicate ScreenShows(text: string, serviceKey: Option<string>, password: string) {
    Occurs(password, HideSecrets(text, serviceKey, Some(password)))
  }

  /** A service key that is not masked: there is none, or it is too short. */
  predicate Unmasked(serviceKey: Option<string>) {
    serviceKey.Some? ==> |serviceKey.value| < 8
  }

  /** Whatever the service key, the screen shows no password that does not overlap its own mask. */
  lemma ScreenHides(text: string, serviceKey: Option<string>, password: string)
    requires |password| >= 8 && !Overlaps(password, BulletMask(password).Text(), 6)
    ensures !ScreenShows(text, serviceKey, password)
  {
    var secrets := Active(serviceKey, Some(password));
    assert secrets[|secrets| - 1] == password;
    LastIsHidden(text, secrets, BulletMask, password);
  }

  /**
   Exactly when the screen mask fails: some text shows the password, masked alone, if and only if the
   password can overlap its own mask beyond the six characters the mask keeps.
   */
  lemma MaskShowsSecretExactly(serviceKey: Option<string>, password: string)
    requires |password| >= 8 && Unmasked(serviceKey)
    ensures (exists text :: ScreenShows(text, serviceKey, password))
            <==> Overlaps(password, BulletMask(password).Text(), 6)
  {
    if Overlaps(password, BulletMask(password).Text(), 6) {
      assert Active(serviceKey, Some(password)) == [password];
      var text := OnlySecretIsShown(password, BulletMask);
      assert ScreenShows(text, serviceKey, password);
    } else {
      forall text ensures !ScreenShows(text, serviceKey, password) {
        ScreenHides(text, serviceKey, password);
      }
    }
  }

  /** Every password that begins with a bullet is shown by some text: it continues the last bullet of its mask. */
  lemma BulletFirstIsShown(serviceKey: Option<string>, password: string) returns (text: string)
    requires |password| >= 8 && Unmasked(serviceKey) && password[0] == BULLET
    ensures ScreenShows(text, serviceKey, password)
  {
    var m := BulletMask(password).Text();
    assert |m| == 14 && m[13] == BULLET;
    assert OverlapsAt(password, m, 6, 13);
    MaskShowsSecretExactly(serviceKey, password);
    text :| ScreenShows(text, serviceKey, password);
  }

  /** The mask of a secret holds the secret exactly if it is short and only bullets follow its sixth character. */
  lemma LoneMaskShowsExactly(secret: string)
    requires |secret| >= 8
    ensures Occurs(secret, HideSecrets(secret, None, Some(secret)))
            <==> |secret| <= 14 && forall i :: 6 <= i < |secret| ==> secret[i] == BULLET
  {
    assert Active(None, Some(secret)) == [secret];
    MaskAllOne(secret, secret, BulletMask);
    MaskHoldsSecret(secret);
  }

  lemma MaskHoldsSecret(secret: string)
    requires |secret| >= 8
    ensures Occurs(secret, BulletMask(secret).Text())
            <==> |secret| <= 14 && forall i :: 6 <= i < |secret| ==> secret[i] == BULLET
  {
    var m := BulletMask(secret).Text();
    assert |m| == 14 && forall i :: 6 <= i < 14 ==> m[i] == BULLET;
    if Occurs(secret, m) {
      var k :| OccursAt(secret, m, k);
      forall i | 6 <= i < |secret| ensures secret[i] == BULLET {
        assert secret[i] == m[k + i];
      }
    }
    if |secret| <= 14 && forall i :: 6 <= i < |secret| ==> secret[i] == BULLET {
      assert m[..|secret|] == secret;
      assert OccursAt(secret, m, 0);
    }
  }

  /** What is shown of a secret masked alone: its first six characters and eight bullets. */
  lemma ScreenReads(text: string, secret: string)
    requires |secret| >= 8
    ensures var b := '\U{2022}';
            HideSecrets(text, None, Some(secret)) == Join(Split(text, secret), secret[..6] + [b, b, b, b, b, b, b, b])
    ensures HideSecrets(text, Some(secret), None) == HideSecrets(text, None, Some(secret))
  {
    var b := '\U{2022}';
    assert Active(None, Some(secret)) == [secret] == Active(Some(secret), None);
    MaskAllOne(text, secret, BulletMask);
    assert BulletMask(secret).Text() == secret[..6] + [b, b, b, b, b, b, b, b];
  }

  // ----- the prompt -----

  predicate Unbracketed(x: string) { '<' !in x && '>' !in x }

  ghost predicate PromptShows(text: string, serviceKey: Option<string>, password: string) {
    Occurs(password, PromptText(text, serviceKey, Some(password)))
  }

  lemma PasswordPlaceholder(serviceKey: Option<string>, password: string)
    requires password != "" && serviceKey != Some(password)
    ensures var shape := Placeholder(serviceKey, password);
            shape.Text() == "<" + PASSWORD_WORDING + ">" && shape.kept == "" && Keeps(shape, password)
  {
  }

  /** With any other service key a password that does not overlap its placeholder stays out of every prompt. */
  lemma PromptHides(text: string, serviceKey: Option<string>, password: string)
    requires |password| >= 8 && serviceKey != Some(password)
    requires !Overlaps(password, "<" + PASSWORD_WORDING + ">", 0)
    ensures !PromptShows(text, serviceKey, password)
  {
    var mask := (s: string) => Placeholder(serviceKey, s);
    var secrets := Active(serviceKey, Some(password));
    assert secrets[|secrets| - 1] == password;
    PasswordPlaceholder(serviceKey, password);
    LastIsHidden(text, secrets, mask, password);
  }

  /**
   The prompt carries no secret free of angle brackets that stands in no wording of a placeholder the prompt
   can put in: for the service key its own and a masked password's, for the password only its own.
   */
  lemma PromptComplete(text: string, serviceKey: Option<string>, password: Option<string>, x: string)
    requires x in Active(serviceKey, password) && Unbracketed(x)
    requires serviceKey == Some(x) ==> !Occurs(x, KEY_WORDING)
    requires password.Some? && |password.value| >= 8 && password != serviceKey ==> !Occurs(x, PASSWORD_WORDING)
    ensures !Occurs(x, PromptText(text, serviceKey, password))
  {
    if serviceKey == Some(x) {
      MaskAllComplete(text, Active(serviceKey, password), (s: string) => Placeholder(serviceKey, s), x);
    } else {
      BetweenExactly(x, '<', PASSWORD_WORDING, '>');
      PromptHides(text, serviceKey, x);
    }
  }

  /** Brackets or not: without a masked key a password shows in some prompt exactly if it overlaps its placeholder. */
  lemma PromptShowsExactly(serviceKey: Option<string>, password: string)
    requires |password| >= 8 && Unmasked(serviceKey)
    ensures (exists text :: PromptShows(text, serviceKey, password))
            <==> Overlaps(password, "<" + PASSWORD_WORDING + ">", 0)
  {
    if Overlaps(password, "<" + PASSWORD_WORDING + ">", 0) {
      var text := PromptOverlapIsShown(serviceKey, password);
      assert PromptShows(text, serviceKey, password);
    } else {
      forall text ensures !PromptShows(text, serviceKey, password) {
        PromptHides(text, serviceKey, password);
      }
    }
  }

  lemma PromptOverlapIsShown(serviceKey: Option<string>, password: string) returns (text: string)
    requires |password| >= 8 && Unmasked(serviceKey) && Overlaps(password, "<" + PASSWORD_WORDING + ">", 0)
    ensures PromptShows(text, serviceKey, password)
  {
    var mask := (s: string) => Placeholder(serviceKey, s);
    assert Active(serviceKey, Some(password)) == [password];
    PasswordPlaceholder(serviceKey, password);
    text := OnlySecretIsShown(password, mask);
  }

  /** When a prompt can show a password without angle brackets. */
  ghost predicate Leaks(serviceKey: Option<string>, password: string) {
    if serviceKey == Some(password) then Occurs(password, KEY_WORDING)
    else Occurs(password, PASSWORD_WORDING) && (Unmasked(serviceKey) || !Occurs(serviceKey.value, password))
  }

  /**
   For every service key: some prompt shows a password without angle brackets if and only if the wording of its
   placeholder holds it, and, unless the two are the same, no masked service key stands inside it.
   */
  lemma PromptLeaksExactly(serviceKey: Option<string>, password: string)
    requires |password| >= 8 && Unbracketed(password)
    ensures (exists text :: PromptShows(text, serviceKey, password)) <==> Leaks(serviceKey, password)
  {
    if Leaks(serviceKey, password) {
      LeakIsShown(serviceKey, password);
      assert PromptShows(password, serviceKey, password);
    }
    if text :| PromptShows(text, serviceKey, password) {
      ShownIsLeak(text, serviceKey, password);
    }
  }

  lemma LeakIsShown(serviceKey: Option<string>, password: string)
    requires |password| >= 8 && Leaks(serviceKey, password)
    ensures PromptShows(password, serviceKey, password)
  {
    var mask := (s: string) => Placeholder(serviceKey, s);
    var shown := mask(password).Text();
    var wording := if serviceKey == Some(password) then KEY_WORDING else PASSWORD_WORDING;
    assert shown == "<" + wording + ">";
    OccursInPart(password, "<", wording, ">");
    if Unmasked(serviceKey) {
      assert Active(serviceKey, Some(password)) == [password];
      MaskAllOne(password, password, mask);
    } else {
      var key := serviceKey.value;
      assert Active(serviceKey, Some(password)) == [key, password];
      MaskAllTwo(password, key, password, mask);
      if key == password {
        ReplaceWhole(password, shown);
        ReplacementStands(shown, password, shown);
        OccursTrans(password, shown, ReplaceAll(shown, password, shown));
      } else {
        NothingToReplace(password, key, mask(key).Text());
        ReplaceWhole(password, shown);
      }
    }
  }

  /** The password `password` is not hidden: its placeholder spells it out. */
  lemma PasswordIsShown()
    ensures PromptShows("password", None, "password")
  {
    assert PASSWORD_WORDING[3..11] == "password";
    assert OccursAt("password", PASSWORD_WORDING, 3);
    LeakIsShown(None, "password");
  }

  lemma MaskAllTwo(text: string, a: string, b: string, mask: string -> Shape)
    requires a != "" && b != ""
    ensures MaskAll(text, [a, b], mask)
            == ReplaceAll(ReplaceAll(text, a, mask(a).Text()), b, mask(b).Text())
  {
    assert "" !in [a, b] && [a, b][1..] == [b];
    SplitJoinReplaces(text, a, mask(a).Text());
    var once := ReplaceAll(text, a, mask(a).Text());
    MaskAllOne(once, b, mask);
    SplitJoinReplaces(once, b, mask(b).Text());
  }

  lemma ShownIsLeak(text: string, serviceKey: Option<string>, password: string)
    requires |password| >= 8 && Unbracketed(password) && PromptShows(text, serviceKey, password)
    ensures Leaks(serviceKey, password)
  {
    if !Occurs(password, if serviceKey == Some(password) then KEY_WORDING else PASSWORD_WORDING) {
      PromptComplete(text, serviceKey, Some(password), password);
    }
    if serviceKey != Some(password) && !Unmasked(serviceKey) && Occurs(serviceKey.value, password) {
      KeyInsideHides(text, serviceKey.value, password);
    }
  }

  /** A service key inside such a password destroys it before its own turn comes. */
  lemma KeyInsideHides(text: string, key: string, password: string)
    requires |key| >= 8 && key != password && Unbracketed(password)
    requires Occurs(key, password) && Occurs(password, PASSWORD_WORDING)
    ensures !PromptShows(text, Some(key), password)
  {
    var mask := (s: string) => Placeholder(Some(key), s);
    forall c | c in key ensures c != '<' && c != '>' {
      CharOccurs(key, password, c);
    }
    KeysApart(key, password);
    var once := ReplaceAll(text, key, mask(key).Text());
    ReplaceShields(key, text, key, mask(key));
    assert Active(Some(key), Some(password)) == [key, password];
    MaskAllTwo(text, key, password, mask);
    if Occurs(password, once) {
      OccursTrans(key, password, once);
    } else {
      NothingToReplace(once, password, mask(password).Text());
    }
  }

  /** Eight characters of the one wording are not in the other. */
  lemma KeysApart(key: string, password: string)
    requires |key| >= 8 && Occurs(key, password) && Occurs(password, PASSWORD_WORDING)
    ensures !Occurs(key, KEY_WORDING)
  {
    OccursTrans(key, password, PASSWORD_WORDING);
    var k :| OccursAt(key, PASSWORD_WORDING, k);
    OccursChars(key, PASSWORD_WORDING, k);
    assert PASSWORD_WORDING[7] == 'w' && |PASSWORD_WORDING| == 11;
    assert key[7 - k] == 'w';
    if Occurs(key, KEY_WORDING) {
      CharOccurs(key, KEY_WORDING, 'w');
    }
  }

  /** `out` is `t` with `s` replaced by `r` and nothing else touched: the pieces between are kept as they are. */
  ghost predicate OnlyReplaced(t: string, s: string, r: string, out: string) {
    exists pieces: seq<string> ::
      t == Join(pieces, s) && out == Join(pieces, r) && forall i :: 0 <= i < |pieces| ==> !Occurs(s, pieces[i])
  }

  lemma SplitKeepsTheRest(t: string, s: string, r: string)
    requires s != ""
    ensures OnlyReplaced(t, s, r, Join(Split(t, s), r))
  {
    SplitJoin(t, s);
    var pieces := Split(t, s);
    assert t == Join(pieces, s);
  }

  /** Every stage replaces one of the secrets and keeps the rest. */
  ghost predicate Stages(stages: seq<string>, secrets: seq<string>, mask: string -> Shape) {
    && |stages| == |secrets| + 1
    && forall i :: 0 <= i < |secrets| ==>
         OnlyReplaced(stages[i], secrets[i], mask(secrets[i]).Text(), stages[i + 1])
  }

  /** The text after each stage of the fold. */
  function MaskStages(text: string, secrets: seq<string>, mask: string -> Shape): (stages: seq<string>)
    requires "" !in secrets
    ensures |stages| == |secrets| + 1 && stages[0] == text
    decreases |secrets|
  {
    if secrets == [] then [text]
    else [text] + MaskStages(Join(Split(text, secrets[0]), mask(secrets[0]).Text()), secrets[1..], mask)
  }

  lemma {:induction false} StagesEndMasked(text: string, secrets: seq<string>, mask: string -> Shape)
    requires "" !in secrets
    ensures MaskStages(text, secrets, mask)[|secrets|] == MaskAll(text, secrets, mask)
    decreases |secrets|
  {
    if secrets != [] {
      StagesEndMasked(Join(Split(text, secrets[0]), mask(secrets[0]).Text()), secrets[1..], mask);
    }
  }

  /** Stage `i` replaces secret `i`. */
  lemma {:induction false} StageIs(text: string, secrets: seq<string>, mask: string -> Shape, i: nat)
    requires "" !in secrets && i < |secrets|
    ensures var stages := MaskStages(text, secrets, mask);
            stages[i + 1] == Join(Split(stages[i], secrets[i]), mask(secrets[i]).Text())
    decreases |secrets|
  {
    if i > 0 {
      StageIs(Join(Split(text, secrets[0]), mask(secrets[0]).Text()), secrets[1..], mask, i - 1);
    }
  }

  /** Masking touches nothing but the secrets: every stage of the fold replaces one of them and keeps the rest. */
  lemma MaskKeepsTheRest(text: string, secrets: seq<string>, mask: string -> Shape) returns (stages: seq<string>)
    requires "" !in secrets
    ensures Stages(stages, secrets, mask) && stages[0] == text && stages[|secrets|] == MaskAll(text, secrets, mask)
  {
    stages := MaskStages(text, secrets, mask);
    StagesEndMasked(text, secrets, mask);
    forall i | 0 <= i < |secrets| ensures OnlyReplaced(stages[i], secrets[i], mask(secrets[i]).Text(), stages[i + 1]) {
      StageIs(text, secrets, mask, i);
      SplitKeepsTheRest(stages[i], secrets[i], mask(secrets[i]).Text());
    }
  }
}
