/** `norm`, the key under which the synchronizer compares category and channel names:
    lower-case the name and keep only the ASCII letters and digits, so that decorative
    emoji, separators and case do not matter. */
module SyncNames {
  import opened JsSemantics

  predicate IsKeyChar(c: char) {
    'a' <= c <= 'z' || '0' <= c <= '9'
  }

  predicate IsKey(s: string) {
    forall i :: 0 <= i < |s| ==> IsKeyChar(s[i])
  }

  /** Lower-case first (ASCII `toLowerCase`), then drop every character outside [a-z0-9].
      The source's intermediate removal of pictographs, symbols and marks only removes
      characters that the final filter removes too. */
  function Norm(s: string): (r: string)
    ensures IsKey(r)
    ensures |r| <= |s|
  {
    if s == [] then []
    else
      var c := LowerChar(s[0]);
      (if IsKeyChar(c) then [c] else []) + Norm(s[1..])
  }

  lemma {:induction false} NormAppend(a: string, b: string)
    ensures Norm(a + b) == Norm(a) + Norm(b)
    decreases |a|
  {
    if a == [] {
      assert a + b == b;
    } else {
      assert (a + b)[0] == a[0];
      assert (a + b)[1..] == a[1..] + b;
      NormAppend(a[1..], b);
    }
  }

  /** A name is its own key exactly when it already consists of [a-z0-9] only. */
  lemma {:induction false} NormFixesKeys(s: string)
    ensures Norm(s) == s <==> IsKey(s)
    decreases |s|
  {
    if s != [] && IsKey(s) {
      assert IsKey(s[1..]);
      NormFixesKeys(s[1..]);
      assert s == [s[0]] + s[1..];
    }
  }

  lemma NormIdempotent(s: string)
    ensures Norm(Norm(s)) == Norm(s)
  {
    NormFixesKeys(Norm(s));
  }

  /** Case never matters: a name and its lower-cased form have the same key. */
  lemma {:induction false} NormIgnoresCase(s: string)
    ensures Norm(Lower(s)) == Norm(s)
    decreases |s|
  {
    if s != [] {
      assert Lower(s)[1..] == Lower(s[1..]);
      NormIgnoresCase(s[1..]);
    }
  }

  /** A character outside [a-zA-Z0-9] (an emoji, '-', ' ') contributes nothing to the key. */
  lemma NormDropsDecoration(c: char, s: string)
    requires !IsKeyChar(LowerChar(c))
    ensures Norm([c] + s) == Norm(s)
  {
    assert ([c] + s)[1..] == s;
  }

  /** A decorated channel name finds its plain counterpart. */
  lemma NormMatchesDecorated()
    ensures Norm("\U{1F4DA}-resources") == Norm("resources") == "resources"
  {
    DecoratedSplit();
    PlainResources();
    DecorationDropped();
    NormAppend("\U{1F4DA}-", "resources");
  }

  lemma DecoratedSplit()
    ensures "\U{1F4DA}-resources" == "\U{1F4DA}-" + "resources"
  {
  }

  lemma PlainResources()
    ensures Norm("resources") == "resources"
  {
    NormFixesKeys("resources");
  }

  lemma DecorationDropped()
    ensures Norm("\U{1F4DA}-") == []
  {
    NormDropsDecoration('\U{1F4DA}', "-");
    NormDropsDecoration('-', []);
    assert "\U{1F4DA}-" == ['\U{1F4DA}'] + "-";
    assert "-" == ['-'] + [];
  }

  /** A role-like name finds its hyphenated, lower-case spelling. */
  lemma NormMatchesSeparators()
    ensures Norm("Core Team") == "coreteam"
    ensures Norm("core-team") == "coreteam"
  {
    SeparatorsSplit();
    CoreTeamWords();
    NormIgnoresCase("Core Team");
    JoinedKey("core", ' ', "team");
    JoinedKey("core", '-', "team");
  }

  lemma SeparatorsSplit()
    ensures Lower("Core Team") == "core" + [' '] + "team"
    ensures "core-team" == "core" + ['-'] + "team"
    ensures "core" + "team" == "coreteam"
  {
    assert Lower("Core Team") == "core" + [' '] + "team";
  }

  lemma CoreTeamWords()
    ensures IsKey("core") && IsKey("team")
  {
  }

  /** Words that are already keys, joined by any separator (a space, '-', an emoji), have the
      words' concatenation as their key. */
  lemma JoinedKey(a: string, sep: char, b: string)
    requires IsKey(a) && IsKey(b) && !IsKeyChar(LowerChar(sep))
    ensures Norm(a + [sep] + b) == a + b
  {
    assert a + [sep] + b == a + ([sep] + b);
    NormAppend(a, [sep] + b);
    NormDropsDecoration(sep, b);
    NormFixesKeys(a);
    NormFixesKeys(b);
  }
}
