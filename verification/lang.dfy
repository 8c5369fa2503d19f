/** The `replace` closure of `translate_locale` (src/lang.rs): how the words
    "RustDesk" of a translation become the name of a rebranded application. */
module Lang {
  import opened Options
  import opened Strings

  const RUSTDESK := "RustDesk"
  const PLACEHOLDER := "#A-P-P-N-A-M-E#"
  // The placeholder without its closing '#'.
  const HALF := "#A-P-P-N-A-M-E"

  /** The text that is rebranded: after the substitution of the captured value. */
  function Substituted(text: string, value: Option<string>): string {
    if value.Some? then Replace(text, "{}", value.value) else text
  }

  /** The translations that are never rebranded. */
  predicate Excluded(name: string) {
    "upgrade_rustdesk_server_pro" <= name || name == "powered_by_me"
  }

  /** The closure, branch by branch. `value` is the text captured between braces. */
  function Rebrand(text: string, value: Option<string>, name: string, app: string): string {
    var s := Substituted(text, value);
    if app == RUSTDESK then s
    else if !(Contains(s, RUSTDESK) && !Excluded(name)) then s
    else if !Contains(app, RUSTDESK) then Replace(s, RUSTDESK, app)
    else if !Contains(s, PLACEHOLDER) then ThreePasses(s, app)
    else s
  }

  /** Hide the application name behind the placeholder, substitute, restore. */
  function ThreePasses(s: string, app: string): string
    requires app != []
  {
    Replace(Replace(Replace(s, app, PLACEHOLDER), RUSTDESK, app), PLACEHOLDER, app)
  }

  /** What the passes are for: one walk over the text that keeps every
      application name it meets and renames every other "RustDesk". */
  function OnePass(s: string, app: string): string
    requires app != []
    decreases |s|
  {
    if s == [] then []
    else if app <= s then app + OnePass(s[|app|..], app)
    else if RUSTDESK <= s then app + OnePass(s[8..], app)
    else [s[0]] + OnePass(s[1..], app)
  }

  /** The text after the first two passes: as `OnePass`, but with kept names hidden. */
  ghost function Hidden(s: string, app: string): string
    requires app != []
    decreases |s|
  {
    if s == [] then []
    else if app <= s then PLACEHOLDER + Hidden(s[|app|..], app)
    else if RUSTDESK <= s then app + Hidden(s[8..], app)
    else [s[0]] + Hidden(s[1..], app)
  }

  /** Some "RustDesk" of the text is not part of a kept application name. */
  predicate Bare(s: string, app: string)
    requires app != []
    decreases |s|
  {
    if s == [] then false
    else if app <= s then Bare(s[|app|..], app)
    else RUSTDESK <= s || Bare(s[1..], app)
  }

  /** The application names for which the branch is written: they contain
      "RustDesk" and, being alphanumeric with hyphens, no '#'. */
  ghost predicate Rebranded(app: string) {
    Contains(app, RUSTDESK) && '#' !in app
  }

  /** The name starts with a proper ending of "RustDesk", such as "DeskRustDesk". */
  predicate Overlaps(app: string) {
    exists k | 1 <= k < 8 :: OverlapsBy(app, k)
  }

  predicate OverlapsBy(app: string, k: nat)
    requires k <= 8
  {
    k <= |app| && RUSTDESK[8 - k..] == app[..k]
  }

  lemma RebrandedFacts(app: string) returns (i: nat)
    requires Rebranded(app)
    ensures i + 8 <= |app| && app[i..i + 8] == RUSTDESK
    ensures forall j | 0 <= j < i :: !(RUSTDESK <= app[j..])
  {
    i := ContainsOffset(app, RUSTDESK);
    assert RUSTDESK == app[i..][..8] == app[i..i + 8];
  }

  // ---------------------------------------------------------------- the first two passes

  /** A name that starts inside a bare "RustDesk" overlaps it. */
  lemma InsideIsOverlap(s: string, app: string, j: nat)
    requires 8 <= |app| && RUSTDESK <= s && 1 <= j < 8
    ensures app <= s[j..] ==> Overlaps(app)
  {
    var k := 8 - j;
    assert RUSTDESK[8 - k..] == s[..8][j..] == s[j..][..k];
    if app <= s[j..] {
      assert OverlapsBy(app, k);
    }
  }

  /** Hiding only inserts text that starts with '#'. */
  lemma {:induction false} PrefixWithoutMark(s: string, x: string, app: string)
    requires app != [] && '#' !in x
    ensures x <= Replace(s, app, PLACEHOLDER) ==> x <= s
  {
    if x != [] && s != [] {
      assert x[0] in x && PLACEHOLDER[0] == '#';
      if !(app <= s) { PrefixWithoutMark(s[1..], x[1..], app); }
    }
  }

  lemma {:induction false} FirstTwoPasses(s: string, app: string)
    requires Rebranded(app) && !Overlaps(app)
    ensures Replace(Replace(s, app, PLACEHOLDER), RUSTDESK, app) == Hidden(s, app)
    decreases |s|
  {
    var i := RebrandedFacts(app);
    if s == [] {
    } else if app <= s {
      var rest := s[|app|..];
      FirstTwoPasses(rest, app);
      ReplaceSkip(PLACEHOLDER, Replace(rest, app, PLACEHOLDER), RUSTDESK, app);
    } else if RUSTDESK <= s {
      forall j | 0 <= j < 8 ensures !(app <= s[j..]) {
        if j > 0 { InsideIsOverlap(s, app, j); } else { assert s[0..] == s; }
      }
      ReplaceUnmatched(s, 8, app, PLACEHOLDER);
      FirstTwoPasses(s[8..], app);
      ReplaceHit(Replace(s[8..], app, PLACEHOLDER), RUSTDESK, app);
    } else {
      var t := Replace(s, app, PLACEHOLDER);
      PrefixWithoutMark(s, RUSTDESK, app);
      assert t[1..] == Replace(s[1..], app, PLACEHOLDER);
      FirstTwoPasses(s[1..], app);
    }
  }

  // ---------------------------------------------------------------- the third pass

  /** Text that ends in its only '#' and holds no 'R'. */
  ghost predicate Tail(x: string) {
    x != [] && x[|x| - 1] == '#' && '#' !in x[..|x| - 1] && 'R' !in x
  }

  lemma TailNotInName(x: string, app: string, y: string)
    requires Rebranded(app) && Tail(x)
    ensures !(x <= app + y)
  {
    var i := RebrandedFacts(app);
    var n := |x| - 1;
    assert app[i] == app[i..i + 8][0] == 'R';
    if |x| > i {
      assert x[i] in x && (app + y)[i] == app[i];
    } else {
      assert app[n] in app && (app + y)[n] == app[n];
    }
  }

  /** Where the hidden text reads like the end of a placeholder, the original
      text did too, up to a closing '#' that may come from a hidden name. */
  lemma {:induction false} PlaceholderTail(s: string, x: string, app: string)
    requires Rebranded(app) && Tail(x) && x <= Hidden(s, app)
    ensures x <= s || (x[..|x| - 1] <= s && app <= s[|x| - 1..])
    decreases |x|
  {
    assert s[0..] == s;
    if app <= s {
      TailOfHiddenName(x, Hidden(s[|app|..], app));
    } else if RUSTDESK <= s {
      TailNotInName(x, app, Hidden(s[8..], app));
    } else if |x| > 1 {
      TailWithoutFirst(x);
      assert x[1..] <= Hidden(s[1..], app);
      PlaceholderTail(s[1..], x[1..], app);
      TailStep(s, x, app);
    }
  }

  /** A tail that reads like a hidden name is the bare '#'. */
  lemma TailOfHiddenName(x: string, y: string)
    requires Tail(x) && x <= PLACEHOLDER + y
    ensures |x| == 1
  {
    TailStart(x);
    assert x[0] == PLACEHOLDER[0] == '#';
  }

  lemma TailStart(x: string)
    requires Tail(x)
    ensures |x| > 1 ==> x[0] != '#'
  {
    assert |x| > 1 ==> x[0] == x[..|x| - 1][0];
  }

  lemma TailWithoutFirst(x: string)
    requires Tail(x) && |x| > 1
    ensures Tail(x[1..])
  {
    assert x[1..][..|x| - 2] == x[..|x| - 1][1..];
  }

  /** One literal character in front of either ending of `PlaceholderTail`. */
  lemma TailStep(s: string, x: string, app: string)
    requires s != [] && |x| > 1 && x[0] == s[0]
    requires x[1..] <= s[1..] || (x[1..][..|x| - 2] <= s[1..] && app <= s[1..][|x| - 2..])
    ensures x <= s || (x[..|x| - 1] <= s && app <= s[|x| - 1..])
  {
    var n := |x| - 1;
    PrefixStep(x, s);
    PrefixStep(x[..n], s);
    assert x[..n][1..] == x[1..][..n - 1];
    if x[1..][..n - 1] <= s[1..] { assert s[1..][n - 1..] == s[n..]; }
  }

  /** An application name cannot start a few characters before another one
      when these characters hold no 'R'. */
  lemma NameNotShifted(s: string, x: string, app: string)
    requires Rebranded(app) && x != [] && 'R' !in x && x + app <= s
    ensures !(app <= s)
  {
    var i := RebrandedFacts(app);
    var m := |x|;
    if i < m {
      assert x[i] in x && s[i] == (x + app)[i] && app[i] == app[i..i + 8][0];
    } else {
      PrefixWindow(app, s, i, i + 8);
      PrefixWindow(x + app, s, i, i + 8);
      NameWindow(x, app, i);
    }
  }

  lemma NameWindow(x: string, app: string, i: nat)
    requires |x| <= i && i + 8 <= |app|
    ensures (x + app)[i..i + 8] == app[i - |x|..][..8]
  {
  }

  /** Literal text without 'R' directly before an application name is copied,
      and the name is hidden. */
  lemma {:induction false} HalfIsLiteral(s: string, x: string, app: string)
    requires Rebranded(app) && 'R' !in x && x + app <= s
    ensures x + PLACEHOLDER <= Hidden(s, app)
    decreases |x|
  {
    if x == [] {
      assert x + app == app && x + PLACEHOLDER == PLACEHOLDER;
    } else {
      NameNotShifted(s, x, app);
      assert s[0] == (x + app)[0] == x[0];
      assert x[1..] + app == (x + app)[1..] <= s[1..];
      HalfIsLiteral(s[1..], x[1..], app);
      HiddenCopies(s, app);
      ConsPrefix(x, PLACEHOLDER, Hidden(s[1..], app));
    }
  }

  lemma HiddenCopies(s: string, app: string)
    requires app != [] && s != [] && s[0] != 'R' && !(app <= s)
    ensures Hidden(s, app) == [s[0]] + Hidden(s[1..], app)
  {
    assert RUSTDESK[0] == 'R';
  }

  lemma ConsPrefix(x: string, p: string, h: string)
    requires x != [] && x[1..] + p <= h
    ensures x + p <= [x[0]] + h
  {
    assert x + p == [x[0]] + (x[1..] + p);
  }

  lemma PlaceholderFacts()
    ensures Tail(PLACEHOLDER[1..]) && PLACEHOLDER == ['#'] + PLACEHOLDER[1..]
    ensures HALF == ['#'] + PLACEHOLDER[1..][..13] && |PLACEHOLDER| == 15
    ensures PLACEHOLDER == HALF + "#" && 'R' !in HALF
  {
  }

  /** The third pass reads a placeholder at a copied '#' exactly when half of
      one stands directly before an application name. */
  lemma PlaceholderAhead(s: string, app: string)
    requires Rebranded(app) && !(PLACEHOLDER <= s)
    requires s != [] && !(app <= s) && !(RUSTDESK <= s)
    ensures PLACEHOLDER <= Hidden(s, app) <==> HALF + app <= s
  {
    if PLACEHOLDER <= Hidden(s, app) { HalfWasThere(s, app); }
    if HALF + app <= s {
      PlaceholderFacts();
      HalfIsLiteral(s, HALF, app);
    }
  }

  lemma HalfWasThere(s: string, app: string)
    requires Rebranded(app) && !(PLACEHOLDER <= s)
    requires s != [] && !(app <= s) && !(RUSTDESK <= s) && PLACEHOLDER <= Hidden(s, app)
    ensures HALF + app <= s
  {
    PlaceholderFacts();
    var x := PLACEHOLDER[1..];
    var t := s[1..];
    var h := Hidden(t, app);
    assert Hidden(s, app) == [s[0]] + h && s == [s[0]] + t;
    assert x <= h;
    PlaceholderTail(t, x, app);
    assert !(x <= t);
    assert HALF <= s;
    assert t[13..] == s[14..];
    assert s == s[..14] + s[14..];
  }

  /** Main result. Unless a text already holds the placeholder (the code's own
      guard), the three passes are the one walk, except exactly when the text
      has half a placeholder directly before the application name. */
  lemma {:induction false} ThirdPass(s: string, app: string)
    requires Rebranded(app) && !Overlaps(app) && !Contains(s, PLACEHOLDER)
    ensures Replace(Hidden(s, app), PLACEHOLDER, app) == OnePass(s, app) <==> !Contains(s, HALF + app)
    decreases |s|
  {
    var bad := HALF + app;
    assert bad[0] == '#' && PLACEHOLDER[0] == '#';
    if s == [] {
    } else if app <= s {
      KeptToken(s, app, app, s[|app|..]);
      ReplaceHit(Hidden(s[|app|..], app), PLACEHOLDER, app);
    } else if RUSTDESK <= s {
      KeptToken(s, RUSTDESK, app, s[8..]);
      ReplaceSkip(app, Hidden(s[8..], app), PLACEHOLDER, app);
    } else {
      var h := Hidden(s[1..], app);
      assert Hidden(s, app) == [s[0]] + h && Hidden(s, app)[1..] == h;
      PlaceholderAhead(s, app);
      ThirdPass(s[1..], app);
      if PLACEHOLDER <= Hidden(s, app) {
        assert s[0] == bad[0] == '#';
        assert app[0] in app;
        assert Replace(Hidden(s, app), PLACEHOLDER, app)[0] == app[0];
      } else {
        CancelLeft([s[0]], Replace(h, PLACEHOLDER, app), OnePass(s[1..], app));
      }
    }
  }

  /** A token of the walk leaves the question to the rest of the text. */
  lemma {:induction false} KeptToken(s: string, token: string, app: string, rest: string)
    requires Rebranded(app) && !Overlaps(app) && !Contains(s, PLACEHOLDER)
    requires '#' !in token && token != [] && s == token + rest
    ensures var p := app + Replace(Hidden(rest, app), PLACEHOLDER, app);
            p == app + OnePass(rest, app) <==> !Contains(s, HALF + app)
    decreases |s|, 0
  {
    NotBefore(token, rest, PLACEHOLDER);
    NotBefore(token, rest, HALF + app);
    ThirdPass(rest, app);
    CancelLeft(app, Replace(Hidden(rest, app), PLACEHOLDER, app), OnePass(rest, app));
  }

  lemma CancelLeft(x: string, y: string, z: string)
    ensures x + y == x + z <==> y == z
  {
    assert (x + y)[|x|..] == y && (x + z)[|x|..] == z;
  }

  /** A pattern that starts with '#' is not found in a front without '#'. */
  lemma {:induction false} NotBefore(x: string, y: string, p: string)
    requires p != [] && p[0] == '#' && '#' !in x
    ensures Contains(x + y, p) == Contains(y, p)
  {
    if x == [] {
      assert x + y == y;
    } else {
      assert (x + y)[1..] == x[1..] + y;
      NotBefore(x[1..], y, p);
    }
  }

  /** The three passes against the one walk, for every text that passes the guard. */
  lemma PassesAgree(s: string, app: string)
    requires Rebranded(app) && !Overlaps(app) && !Contains(s, PLACEHOLDER)
    ensures ThreePasses(s, app) == OnePass(s, app) <==> !Contains(s, HALF + app)
  {
    FirstTwoPasses(s, app);
    ThirdPass(s, app);
  }

  /** An overlapping name defeats the passes: the text that glues a bare
      "RustDesk" to the name's remainder loses the bare word's first letters. */
  lemma OverlapBreaks(app: string, k: nat) returns (s: string)
    requires Rebranded(app) && 1 <= k < 8 && OverlapsBy(app, k)
    ensures '#' !in s && ThreePasses(s, app) != OnePass(s, app)
  {
    s := RUSTDESK + app[k..];
    GluedName(app, k);
    OverlapStart(app, k);
    GlueBreaks(s, app, 8 - k);
    MarkNotGlued(app, k);
  }

  lemma MarkNotGlued(app: string, k: nat)
    requires '#' !in app && k <= |app|
    ensures '#' !in RUSTDESK + app[k..]
  {
    assert '#' !in RUSTDESK;
  }

  /** The one walk renames the bare word in front, the passes spoil it. */
  lemma GlueBreaks(s: string, app: string, cut: nat)
    requires app != [] && app[0] != 'R' && RUSTDESK <= s && 1 <= cut < 8 && s[cut..] == app
    ensures ThreePasses(s, app) != OnePass(s, app)
  {
    WordStartsText(s);
    var p := FirstNameInside(s, app, cut);
    FirstLetterSurvives(s, app, p);
    WordRenamed(s, app);
  }

  lemma WordStartsText(s: string)
    requires RUSTDESK <= s
    ensures |s| >= 8 && s[0] == 'R'
  {
  }

  lemma WordRenamed(s: string, app: string)
    requires app != [] && RUSTDESK <= s && !(app <= s)
    ensures OnePass(s, app) != [] && OnePass(s, app)[0] == app[0]
  {
  }

  lemma OverlapStart(app: string, k: nat)
    requires 1 <= k < 8 && OverlapsBy(app, k)
    ensures app[0] != 'R'
  {
    assert app[0] == app[..k][0] == RUSTDESK[8 - k..][0] == RUSTDESK[8 - k];
  }

  lemma GluedName(app: string, k: nat)
    requires 1 <= k < 8 && OverlapsBy(app, k)
    ensures (RUSTDESK + app[k..])[8 - k..] == app
  {
    assert (RUSTDESK + app[k..])[8 - k..] == RUSTDESK[8 - k..] + app[k..];
    assert app == app[..k] + app[k..];
  }

  lemma FirstLetterSurvives(s: string, app: string, p: nat)
    requires app != [] && RUSTDESK <= s && 1 <= p < 8
    requires app <= s[p..] && forall j | 0 <= j < p :: !(app <= s[j..])
    ensures ThreePasses(s, app) != [] && ThreePasses(s, app)[0] == 'R'
  {
    ReplaceUnmatched(s, p, app, PLACEHOLDER);
    var u := Replace(s, app, PLACEHOLDER);
    assert u[p] == '#' && u[0] == 'R';
    assert !(RUSTDESK <= u) by { WordHasNoMark(p); }
    assert Replace(u, RUSTDESK, app)[0] == 'R';
  }

  lemma WordHasNoMark(p: nat)
    requires p < 8
    ensures RUSTDESK[p] != '#'
  {
  }

  lemma FirstNameInside(s: string, app: string, cut: nat) returns (p: nat)
    requires app != [] && 1 <= cut < 8 <= |s| && s[cut..] == app && !(app <= s)
    ensures 1 <= p <= cut && app <= s[p..] && forall j | 0 <= j < p :: !(app <= s[j..])
  {
    ContainsAt(s, app, cut);
    p := ContainsOffset(s, app);
    assert s[0..] == s;
  }

  /** For which names the three passes work on every text without '#'. */
  lemma PassesAgreeIff(app: string)
    requires Rebranded(app)
    ensures (forall s: string | '#' !in s :: ThreePasses(s, app) == OnePass(s, app)) <==> !Overlaps(app)
  {
    if Overlaps(app) {
      var k :| 1 <= k < 8 && OverlapsBy(app, k);
      var s := OverlapBreaks(app, k);
    } else {
      forall s: string | '#' !in s ensures ThreePasses(s, app) == OnePass(s, app) {
        assert PLACEHOLDER[0] == '#' && (HALF + app)[0] == '#';
        ContainsNeeds(s, PLACEHOLDER, 0);
        ContainsNeeds(s, HALF + app, 0);
        PassesAgree(s, app);
      }
    }
  }

  // ---------------------------------------------------------------- no duplication

  /** A token of the result does not start with an ending of "RustDesk". */
  lemma EndingNotInToken(app: string, y: string, j: nat)
    requires 8 <= |app| && !Overlaps(app) && 1 <= j < 8
    ensures !(RUSTDESK[j..] <= app + y)
  {
    var k := 8 - j;
    assert !OverlapsBy(app, k);
    assert (app + y)[..k] == app[..k];
  }

  lemma PrefixStep(x: string, y: string)
    requires x != [] && y != []
    ensures x <= y <==> x[0] == y[0] && x[1..] <= y[1..]
  {
    assert x == [x[0]] + x[1..] && y == [y[0]] + y[1..];
  }

  lemma PrefixWindow(x: string, y: string, from: nat, to: nat)
    requires from <= to <= |x|
    ensures x <= y ==> to <= |y| && x[from..to] == y[from..to]
  {
    if x <= y { assert y[..|x|] == x; }
  }

  /** An ending of "RustDesk" in the result was there before. */
  lemma {:induction false} EndingWasThere(t: string, j: nat, app: string)
    requires Rebranded(app) && !Overlaps(app) && 1 <= j <= 8
    ensures RUSTDESK[j..] <= OnePass(t, app) ==> RUSTDESK[j..] <= t
    decreases 8 - j
  {
    var i := RebrandedFacts(app);
    if t == [] || j == 8 {
    } else if app <= t {
      EndingNotInToken(app, OnePass(t[|app|..], app), j);
    } else if RUSTDESK <= t {
      EndingNotInToken(app, OnePass(t[8..], app), j);
    } else {
      EndingWasThere(t[1..], j + 1, app);
      EndingStep(t, j, OnePass(t[1..], app));
    }
  }

  lemma EndingStep(t: string, j: nat, out: string)
    requires t != [] && j < 8
    requires RUSTDESK[j + 1..] <= out ==> RUSTDESK[j + 1..] <= t[1..]
    ensures RUSTDESK[j..] <= [t[0]] + out ==> RUSTDESK[j..] <= t
  {
    assert RUSTDESK[j..][1..] == RUSTDESK[j + 1..];
    PrefixStep(RUSTDESK[j..], [t[0]] + out);
    PrefixStep(RUSTDESK[j..], t);
  }

  /** No "RustDesk" starts at a copied character of the result. */
  lemma WordNotRebuilt(t: string, app: string)
    requires Rebranded(app) && !Overlaps(app)
    requires t != [] && !(app <= t) && !(RUSTDESK <= t)
    ensures !(RUSTDESK <= OnePass(t, app))
  {
    EndingWasThere(t[1..], 1, app);
    EndingStep(t, 0, OnePass(t[1..], app));
    assert RUSTDESK[0..] == RUSTDESK;
  }

  /** A token of the result does not start with an ending of the name that
      has the name's first "RustDesk", at offset i, still ahead. */
  lemma NameEndingNotInToken(app: string, y: string, j: nat, i: nat)
    requires 1 <= j <= i && i + 8 <= |app| && app[i..i + 8] == RUSTDESK
    requires !(RUSTDESK <= app[i - j..])
    ensures !(app[j..] <= app + y)
  {
    WordAhead(app, y, j, i, RUSTDESK);
  }

  /** If a name's ending started a text that starts with the name, the word
      ahead in the ending would stand earlier in the name, too. */
  lemma WordAhead(app: string, y: string, j: nat, i: nat, word: string)
    requires j <= i && i + |word| <= |app| && app[i..i + |word|] == word
    ensures app[j..] <= app + y ==> word <= app[i - j..]
  {
    if app[j..] <= app + y {
      var d, n := i - j, |word|;
      assert app[j..] == (app + y)[..|app| - j];
      forall k | 0 <= k < n ensures app[d..][k] == word[k] {
        assert app[j..][d + k] == (app + y)[d + k] == app[d + k];
        assert app[j..][d + k] == app[i + k] == app[i..i + n][k];
      }
      assert app[d..][..n] == word;
    }
  }

  /** Nor does such an ending start at a copied character. */
  lemma {:induction false} NameNotRebuilt(t: string, j: nat, i: nat, app: string)
    requires Rebranded(app) && !Overlaps(app)
    requires i + 8 <= |app| && app[i..i + 8] == RUSTDESK
    requires forall l | 0 <= l < i :: !(RUSTDESK <= app[l..])
    requires j <= i && (j == 0 ==> t != [] && !(app <= t) && !(RUSTDESK <= t))
    ensures !(app[j..] <= OnePass(t, app))
    decreases i - j
  {
    assert |app[j..]| == |app| - j;
    if t == [] {
    } else if app <= t {
      NameEndingNotInToken(app, OnePass(t[|app|..], app), j, i);
    } else if RUSTDESK <= t {
      NameEndingNotInToken(app, OnePass(t[8..], app), j, i);
    } else if j == i {
      WordNotRebuilt(t, app);
      WordStartsEnding(app, i, OnePass(t, app));
    } else {
      NameNotRebuilt(t[1..], j + 1, i, app);
      EndingAfterFirst(app, j, t[0], OnePass(t[1..], app));
    }
  }

  lemma WordStartsEnding(app: string, i: nat, out: string)
    requires i + 8 <= |app| && app[i..i + 8] == RUSTDESK
    ensures app[i..] <= out ==> RUSTDESK <= out
  {
    assert app[i..][..8] == app[i..i + 8];
  }

  lemma EndingAfterFirst(app: string, j: nat, c: char, out: string)
    requires j < |app|
    ensures app[j..] <= [c] + out ==> app[j + 1..] <= out
  {
    PrefixStep(app[j..], [c] + out);
    assert app[j..][1..] == app[j + 1..] && ([c] + out)[1..] == out;
  }

  lemma {:induction false} NothingBareLeft(s: string, app: string)
    requires Rebranded(app) && !Overlaps(app)
    ensures !Bare(OnePass(s, app), app)
    decreases |s|
  {
    var i := RebrandedFacts(app);
    var out := OnePass(s, app);
    if s == [] {
    } else if app <= s || RUSTDESK <= s {
      var rest := s[if app <= s then |app| else 8..];
      NothingBareLeft(rest, app);
      assert app <= out && out[|app|..] == OnePass(rest, app);
    } else {
      NothingBareLeft(s[1..], app);
      assert out[1..] == OnePass(s[1..], app);
      WordNotRebuilt(s, app);
      NameNotRebuilt(s, 0, i, app);
      assert app[0..] == app;
    }
  }

  lemma {:induction false} UnchangedIfNothingBare(s: string, app: string)
    requires app != [] && !Bare(s, app)
    ensures OnePass(s, app) == s
    decreases |s|
  {
    if s == [] {
    } else if app <= s {
      UnchangedIfNothingBare(s[|app|..], app);
      assert s == app + s[|app|..];
    } else {
      assert !(RUSTDESK <= s) && !Bare(s[1..], app);
      UnchangedIfNothingBare(s[1..], app);
      assert OnePass(s, app) == [s[0]] + OnePass(s[1..], app);
    }
  }

  lemma OnePassIdempotent(s: string, app: string)
    requires Rebranded(app) && !Overlaps(app)
    ensures OnePass(OnePass(s, app), app) == OnePass(s, app)
  {
    NothingBareLeft(s, app);
    UnchangedIfNothingBare(OnePass(s, app), app);
  }

  lemma {:induction false} OnePassAddsNoMark(s: string, app: string)
    requires app != [] && '#' !in app && '#' !in s
    ensures '#' !in OnePass(s, app)
    decreases |s|
  {
    if s == [] {
    } else if app <= s {
      OnePassAddsNoMark(s[|app|..], app);
    } else if RUSTDESK <= s {
      OnePassAddsNoMark(s[8..], app);
    } else {
      OnePassAddsNoMark(s[1..], app);
    }
  }

  // ---------------------------------------------------------------- the closure

  /** A text that never mentions "RustDesk" is kept by the one walk. */
  lemma {:induction false} OnePassWithoutWord(s: string, app: string)
    requires Rebranded(app) && !Contains(s, RUSTDESK)
    ensures OnePass(s, app) == s
    decreases |s|
  {
    if s != [] {
      if app <= s {
        var i := RebrandedFacts(app);
        assert s[i..][..8] == app[i..i + 8];
        ContainsAt(s, RUSTDESK, i);
      }
      OnePassWithoutWord(s[1..], app);
    }
  }

  /** Renaming a bare "RustDesk" lengthens the text. */
  lemma {:induction false} OnePassLengthens(s: string, app: string)
    requires |app| > 8
    ensures |OnePass(s, app)| >= |s| && (Bare(s, app) ==> |OnePass(s, app)| > |s|)
    decreases |s|
  {
    if s == [] {
    } else if app <= s {
      OnePassLengthens(s[|app|..], app);
    } else if RUSTDESK <= s {
      OnePassLengthens(s[8..], app);
    } else {
      OnePassLengthens(s[1..], app);
    }
  }

  /** What the closure does with such a name, by the two guards of its branch. */
  lemma RebrandBranches(text: string, value: Option<string>, name: string, app: string)
    requires Contains(app, RUSTDESK) && app != RUSTDESK && !Excluded(name)
    ensures var s := Substituted(text, value);
            Rebrand(text, value, name, app)
            == if Contains(s, RUSTDESK) && !Contains(s, PLACEHOLDER) then ThreePasses(s, app) else s
  {
  }

  lemma LongerThanWord(app: string)
    requires Rebranded(app) && app != RUSTDESK
    ensures |app| > 8
  {
    var i := RebrandedFacts(app);
    WholeName(app, i);
  }

  lemma WholeName(app: string, i: nat)
    requires i + 8 <= |app| && app[i..i + 8] == RUSTDESK
    ensures |app| == 8 ==> app == RUSTDESK
  {
    assert |app| == 8 ==> app[i..i + 8] == app;
  }

  /** A text with half a placeholder before the name mentions "RustDesk". */
  lemma HalfNeedsWord(s: string, app: string)
    requires Rebranded(app) && Contains(s, HALF + app)
    ensures Contains(s, RUSTDESK)
  {
    var i := RebrandedFacts(app);
    var k := ContainsOffset(s, HALF + app);
    var j := k + |HALF| + i;
    assert s[k..][..|HALF + app|] == HALF + app;
    WindowBehind(s, HALF, app, k, i, 8);
    ContainsAt(s, RUSTDESK, j);
  }

  lemma WindowBehind(s: string, x: string, y: string, k: nat, i: nat, n: nat)
    requires k <= |s| && x + y <= s[k..] && i + n <= |y|
    ensures k + |x| + i + n <= |s| && s[k + |x| + i..][..n] == y[i..i + n]
  {
    var here, there := s[k + |x| + i..][..n], y[i..i + n];
    forall m | 0 <= m < n ensures here[m] == there[m] {
      assert s[k..][|x| + i + m] == (x + y)[|x| + i + m];
    }
  }

  /** Main result for the whole closure, for every text and captured value: it
      is the one walk exactly if, depending on its guard, nothing bare is left
      alone or no half placeholder stands before the application name. */
  lemma RebrandIff(text: string, value: Option<string>, name: string, app: string)
    requires Rebranded(app) && !Overlaps(app) && app != "RustDesk"
    requires !("upgrade_rustdesk_server_pro" <= name) && name != "powered_by_me"
    ensures var s := Substituted(text, value);
            Rebrand(text, value, name, app) == OnePass(s, app)
            <==> if Contains(s, PLACEHOLDER) then !Bare(s, app) else !Contains(s, HALF + app)
  {
    var s := Substituted(text, value);
    RebrandBranches(text, value, name, app);
    if Contains(s, PLACEHOLDER) {
      LongerThanWord(app);
      OnePassLengthens(s, app);
      if !Bare(s, app) { UnchangedIfNothingBare(s, app); }
    } else if Contains(s, RUSTDESK) {
      PassesAgree(s, app);
    } else {
      OnePassWithoutWord(s, app);
      if Contains(s, HALF + app) { HalfNeedsWord(s, app); }
    }
  }

  lemma RebrandIsOnePass(text: string, value: Option<string>, name: string, app: string)
    requires Rebranded(app) && !Overlaps(app) && app != RUSTDESK && !Excluded(name)
    requires '#' !in Substituted(text, value)
    ensures Rebrand(text, value, name, app) == OnePass(Substituted(text, value), app)
  {
    var s := Substituted(text, value);
    assert PLACEHOLDER[0] == '#' && (HALF + app)[0] == '#';
    ContainsNeeds(s, PLACEHOLDER, 0);
    ContainsNeeds(s, HALF + app, 0);
    RebrandIff(text, value, name, app);
  }

  lemma SuffixedName(suffix: string)
    requires suffix != [] && '#' !in suffix
    ensures var app := RUSTDESK + suffix; Rebranded(app) && !Overlaps(app) && app != RUSTDESK
  {
    var app := RUSTDESK + suffix;
    assert app[0] == 'R' && Contains(app, RUSTDESK);
    forall k | 1 <= k < 8 ensures !OverlapsBy(app, k) {
      assert app[..k][0] == 'R' && RUSTDESK[8 - k..][0] == RUSTDESK[8 - k];
    }
  }

  /** The documented promise: for an application called "RustDesk" plus a
      suffix, translating a text without '#' keeps its application names,
      renames everything else, and translating the result changes nothing. */
  lemma RebrandOnce(text: string, value: Option<string>, name: string, suffix: string)
    requires suffix != [] && '#' !in suffix && '#' !in Substituted(text, value) && !Excluded(name)
    ensures var app := RUSTDESK + suffix;
            var once := Rebrand(text, value, name, app);
            && once == OnePass(Substituted(text, value), app)
            && !Bare(once, app)
            && Rebrand(once, None, name, app) == once
  {
    var app, s := RUSTDESK + suffix, Substituted(text, value);
    SuffixedName(suffix);
    RebrandIsOnePass(text, value, name, app);
    NothingBareLeft(s, app);
    OnePassAddsNoMark(s, app);
    RebrandIsOnePass(OnePass(s, app), None, name, app);
    OnePassIdempotent(s, app);
  }

  // ---------------------------------------------------------------- other names

  /** The captured value stands in place of every "{}", between the same pieces. */
  lemma SubstitutedMeans(text: string, value: Option<string>)
    ensures Substituted(text, value) == if value.Some? then JoinWith(Split(text, "{}"), value.value) else text
  {
    if value.Some? { ReplaceIsJoin(text, "{}", value.value); }
  }

  lemma {:induction false} OnePiece(s: string, p: string)
    requires p != [] && !Contains(s, p)
    ensures Split(s, p) == [s]
    decreases |s|
  {
    if s != [] {
      OnePiece(s[1..], p);
      assert s == [s[0]] + s[1..];
    }
  }

  /** Main result for the usual rebranding, to a name without "RustDesk": the
      text's pieces around "RustDesk" are joined by the name, for every text,
      value and key but the excluded ones. */
  lemma RebrandPlain(text: string, value: Option<string>, name: string, app: string)
    requires app != "RustDesk" && !Contains(app, "RustDesk")
    requires !("upgrade_rustdesk_server_pro" <= name) && name != "powered_by_me"
    ensures Rebrand(text, value, name, app) == JoinWith(Split(Substituted(text, value), "RustDesk"), app)
  {
    var s := Substituted(text, value);
    ReplaceIsJoin(s, RUSTDESK, app);
    if !Contains(s, RUSTDESK) { OnePiece(s, RUSTDESK); }
  }

  /** The program under its own name, and the excluded texts, are only substituted. */
  lemma RebrandLeaves(text: string, value: Option<string>, name: string, app: string)
    requires app == "RustDesk" || "upgrade_rustdesk_server_pro" <= name || name == "powered_by_me"
    ensures Rebrand(text, value, name, app) == Substituted(text, value)
  {
  }
}
