/** The string operations that the app-name rewriting and the file-name parser
    use, with the meaning Rust's `str` gives them: matches are found from left
    to right and never overlap. */
module Strings {

  /** `s.contains(p)`. */
  predicate Contains(s: string, p: string)
    decreases |s|
  {
    p <= s || (s != [] && Contains(s[1..], p))
  }

  /** `s.replace(from, to)` for a non-empty pattern. */
  function Replace(s: string, from: string, to: string): string
    requires from != []
    decreases |s|
  {
    if s == [] then []
    else if from <= s then to + Replace(s[|from|..], from, to)
    else [s[0]] + Replace(s[1..], from, to)
  }

  /** `s.split(sep)` for a non-empty separator: always at least one piece. */
  function Split(s: string, sep: string): (pieces: seq<string>)
    requires sep != []
    ensures pieces != []
    decreases |s|
  {
    if s == [] then [[]]
    else if sep <= s then [[]] + Split(s[|sep|..], sep)
    else
      var rest := Split(s[1..], sep);
      [[s[0]] + rest[0]] + rest[1..]
  }

  /** `contains` finds exactly the patterns that occur at some offset. */
  lemma {:induction false} ContainsAt(s: string, p: string, i: nat)
    requires i <= |s| && p <= s[i..]
    ensures Contains(s, p)
  {
    if i > 0 {
      assert s[1..][i - 1..] == s[i..];
      ContainsAt(s[1..], p, i - 1);
    }
  }

  lemma {:induction false} ContainsOffset(s: string, p: string) returns (i: nat)
    requires Contains(s, p)
    ensures i <= |s| && p <= s[i..]
    ensures forall j | 0 <= j < i :: !(p <= s[j..])
  {
    if p <= s {
      i := 0;
    } else {
      var k := ContainsOffset(s[1..], p);
      i := k + 1;
      assert s[1..][k..] == s[i..];
      forall j | 0 <= j < i ensures !(p <= s[j..]) {
        if j > 0 { assert s[1..][j - 1..] == s[j..]; }
      }
    }
  }

  /** A pattern whose characters are missing from the text does not occur. */
  lemma {:induction false} ContainsNeeds(s: string, p: string, k: nat)
    requires k < |p| && p[k] !in s
    ensures !Contains(s, p)
  {
    assert k < |s| ==> s[k] in s;
    if s != [] { ContainsNeeds(s[1..], p, k); }
  }

  /** A stretch in which no match starts is copied. */
  lemma {:induction false} ReplaceUnmatched(s: string, n: nat, from: string, to: string)
    requires from != [] && n <= |s|
    requires forall j | 0 <= j < n :: !(from <= s[j..])
    ensures Replace(s, from, to) == s[..n] + Replace(s[n..], from, to)
    decreases n
  {
    if n == 0 {
      assert s[0..] == s;
    } else {
      assert s[0..] == s;
      forall j | 0 <= j < n - 1 ensures !(from <= s[1..][j..]) {
        assert s[1..][j..] == s[j + 1..];
      }
      ReplaceUnmatched(s[1..], n - 1, from, to);
      assert s[1..][n - 1..] == s[n..];
      assert s[..n] == [s[0]] + s[1..][..n - 1];
    }
  }

  /** A prefix that lacks the pattern's first character is copied. */
  lemma {:induction false} ReplaceSkip(x: string, y: string, from: string, to: string)
    requires from != [] && from[0] !in x
    ensures Replace(x + y, from, to) == x + Replace(y, from, to)
  {
    forall j | 0 <= j < |x| ensures !(from <= (x + y)[j..]) {
      assert (x + y)[j..][0] == x[j];
    }
    ReplaceUnmatched(x + y, |x|, from, to);
    assert (x + y)[|x|..] == y && (x + y)[..|x|] == x;
  }

  /** A match at the front is substituted. */
  lemma ReplaceHit(y: string, from: string, to: string)
    requires from != []
    ensures Replace(from + y, from, to) == to + Replace(y, from, to)
  {
    assert (from + y)[|from|..] == y;
  }

  // ---------------------------------------------------------------- small and capital letters

  function LowerChar(c: char): char {
    if 'A' <= c <= 'Z' then (c as int + 32) as char else c
  }

  /** `s.to_lowercase()` for ASCII text. */
  function Lower(s: string): string {
    seq(|s|, i requires 0 <= i < |s| => LowerChar(s[i]))
  }

  predicate EndsWith(s: string, e: string) {
    |e| <= |s| && s[|s| - |e|..] == e
  }

  /** Each character is that of the word or its capital. */
  predicate Spells(x: string, word: string) {
    |x| == |word| && forall i | 0 <= i < |x| :: SpellsChar(x[i], word[i])
  }

  predicate SpellsChar(c: char, small: char) {
    c == small || ('a' <= small <= 'z' && c as int == small as int - 'a' as int + 'A' as int)
  }

  predicate StartsSpelled(s: string, word: string) { |word| <= |s| && Spells(s[..|word|], word) }

  predicate EndsSpelled(s: string, word: string) { |word| <= |s| && Spells(s[|s| - |word|..], word) }

  /** The word stands somewhere in the text, in any spelling. */
  ghost predicate Mentions(s: string, word: string) {
    exists i :: 0 <= i <= |s| && StartsSpelled(s[i..], word)
  }

  predicate Small(word: string) { forall i | 0 <= i < |word| :: !('A' <= word[i] <= 'Z') }

  lemma WordsAreSmall()
    ensures Small("host=") && Small("key=") && Small("api=") && Small("relay=") && Small(".exe")
  {
  }

  lemma SpellsCharLower(c: char, small: char)
    requires !('A' <= small <= 'Z')
    ensures SpellsChar(c, small) <==> LowerChar(c) == small
  {
  }

  /** Lower-casing recognises exactly the spellings of a word. */
  lemma SpellsLower(x: string, word: string)
    requires Small(word)
    ensures Spells(x, word) <==> Lower(x) == word
  {
    forall i | 0 <= i < |x| && i < |word| ensures SpellsChar(x[i], word[i]) <==> Lower(x)[i] == word[i] {
      SpellsCharLower(x[i], word[i]);
    }
  }

  lemma StartsLower(s: string, word: string)
    requires Small(word)
    ensures StartsSpelled(s, word) <==> word <= Lower(s)
  {
    if |word| <= |s| {
      SpellsLower(s[..|word|], word);
      assert Lower(s[..|word|]) == Lower(s)[..|word|];
    }
  }

  lemma EndsLower(s: string, word: string)
    requires Small(word)
    ensures EndsSpelled(s, word) <==> EndsWith(Lower(s), word)
  {
    if |word| <= |s| {
      SpellsLower(s[|s| - |word|..], word);
      assert Lower(s[|s| - |word|..]) == Lower(s)[|s| - |word|..];
    }
  }

  lemma MentionsLower(s: string, word: string)
    requires Small(word)
    ensures Mentions(s, word) <==> Contains(Lower(s), word)
  {
    if Mentions(s, word) {
      var i :| 0 <= i <= |s| && StartsSpelled(s[i..], word);
      StartsLower(s[i..], word);
      assert Lower(s[i..]) == Lower(s)[i..];
      ContainsAt(Lower(s), word, i);
    }
    if Contains(Lower(s), word) {
      var i := ContainsOffset(Lower(s), word);
      assert Lower(s[i..]) == Lower(s)[i..];
      StartsLower(s[i..], word);
    }
  }

  lemma LowerSum(x: string, y: string)
    ensures Lower(x + y) == Lower(x) + Lower(y)
  {
  }

  // ---------------------------------------------------------------- splitting and joining

  function JoinWith(pieces: seq<string>, sep: string): string
    requires pieces != []
  {
    if |pieces| == 1 then pieces[0] else pieces[0] + (sep + JoinWith(pieces[1..], sep))
  }

  lemma {:induction false} JoinLongerFirst(c: char, pieces: seq<string>, sep: string)
    requires pieces != []
    ensures JoinWith([[c] + pieces[0]] + pieces[1..], sep) == [c] + JoinWith(pieces, sep)
  {
    var more := [[c] + pieces[0]] + pieces[1..];
    if |pieces| > 1 {
      assert more[1..] == pieces[1..];
      var behind := sep + JoinWith(pieces[1..], sep);
      assert ([c] + pieces[0]) + behind == [c] + (pieces[0] + behind);
    }
  }

  /** Replacing a pattern joins the pieces around it by the new text. */
  lemma {:induction false} ReplaceIsJoin(s: string, from: string, to: string)
    requires from != []
    ensures Replace(s, from, to) == JoinWith(Split(s, from), to)
    decreases |s|
  {
    if s == [] {
    } else if from <= s {
      var rest := Split(s[|from|..], from);
      ReplaceIsJoin(s[|from|..], from, to);
      assert ([[]] + rest)[1..] == rest;
      assert [] + (to + JoinWith(rest, to)) == to + JoinWith(rest, to);
    } else {
      ReplaceIsJoin(s[1..], from, to);
      JoinLongerFirst(s[0], Split(s[1..], from), to);
    }
  }

  /** Replacing a pattern by itself changes nothing, so the pieces of a text,
      joined by the separator, are the text. */
  lemma {:induction false} SplitLosesNothing(s: string, sep: string)
    requires sep != []
    ensures JoinWith(Split(s, sep), sep) == s
    decreases |s|
  {
    ReplaceIsJoin(s, sep, sep);
    ReplaceByItself(s, sep);
  }

  lemma {:induction false} ReplaceByItself(s: string, sep: string)
    requires sep != []
    ensures Replace(s, sep, sep) == s
    decreases |s|
  {
    if s == [] {
    } else if sep <= s {
      ReplaceByItself(s[|sep|..], sep);
      assert s == sep + s[|sep|..];
    } else {
      ReplaceByItself(s[1..], sep);
      assert s == [s[0]] + s[1..];
    }
  }

  /** No piece holds the separator. */
  lemma {:induction false} PiecesAreFree(s: string, sep: string, i: nat)
    requires sep != [] && i < |Split(s, sep)|
    ensures !Contains(Split(s, sep)[i], sep)
    decreases |s|
  {
    var pieces := Split(s, sep);
    if s == [] {
    } else if sep <= s {
      if i > 0 { PiecesAreFree(s[|sep|..], sep, i - 1); }
    } else {
      var rest := Split(s[1..], sep);
      PiecesAreFree(s[1..], sep, i);
      if i == 0 {
        FirstPieceIsFront(s, sep);
        assert pieces[0][1..] == rest[0];
        PrefixOfFront(sep, pieces[0], s);
      }
    }
  }

  lemma PrefixOfFront(x: string, front: string, s: string)
    requires front <= s
    ensures x <= front ==> x <= s
  {
  }

  lemma {:induction false} FirstPieceIsFront(s: string, sep: string)
    requires sep != []
    ensures Split(s, sep)[0] <= s
    decreases |s|
  {
    if s != [] && !(sep <= s) {
      FirstPieceIsFront(s[1..], sep);
      assert s == [s[0]] + s[1..];
    }
  }
}
