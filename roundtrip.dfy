/**
 * How `format_output` and `tokenize_input` fit together: reading the
 * formatted text back gives the tokens that were formatted, as long as
 * the tokens are ones the tokenizer could have produced and no two
 * neighbours would merge (a punctuation-led token after one that already
 * ends in punctuation). This rests on capitalization being ASCII-only, as
 * `ToUpper` is; `char::to_uppercase` of a non-ASCII first letter yields a
 * character the ASCII lower-casing of the tokenizer does not undo.
 */
module RoundTrip {
  import opened Text
  import opened Tokenizer
  import opened Formatter

  /** Tokens the formatter can write out so that the tokenizer reads back the same ones. */
  ghost predicate Separable(ts: seq<string>)
  {
    && (forall i :: 0 <= i < |ts| ==> IsToken(ts[i]))
    && (forall i :: 0 < i < |ts| && IsPunctuation(ts[i][0]) ==> !IsPunctuation(ts[i - 1][|ts[i - 1]| - 1]))
  }

  /** `u` spells `t` once lower-cased. */
  ghost predicate Spells(u: string, t: string)
  {
    |u| == |t| && forall i :: 0 <= i < |u| ==> ToLower(u[i]) == t[i]
  }

  lemma {:induction false} RunAppend(m: Machine, a: string, b: string)
    ensures Run(m, a + b) == Run(Run(m, a), b)
    decreases |b|
  {
    if b == [] {
      assert a + b == a;
    } else {
      var b' := b[..|b| - 1];
      assert (a + b)[..|a + b| - 1] == a + b';
      RunAppend(m, a, b');
    }
  }

  /** Both a token and its capitalized form spell the token. */
  lemma PieceSpells(t: string)
    requires IsToken(t)
    ensures Spells(t, t) && Spells(Capitalize(t), t)
  {
    var u := Capitalize(t);
    forall i | 0 <= i < |u| ensures ToLower(u[i]) == t[i] {
      if i > 0 {
        assert u[i] == u[1..][i - 1];
      }
    }
  }

  /**
   * Reading the first `j` characters of a spelling of `t` from `m` finishes
   * what `m` was building, unless `t` may continue it, and builds `t[..j]`.
   */
  lemma {:induction false} RunWordPrefix(m: Machine, u: string, t: string, j: nat)
    requires IsToken(t) && Spells(u, t) && 1 <= j <= |u|
    requires m.current == [] || (IsPunctuation(t[0]) && !IsPunctuation(m.current[|m.current| - 1]))
    ensures Run(m, u[..j]) == Machine(Finish(m).tokens, t[..j])
    decreases j
  {
    assert u[..j][..j - 1] == u[..j - 1];
    if j == 1 {
      assert u[..0] == [];
      WordFirstStep(m, u[0], t);
      assert t[..1] == [t[0]];
    } else {
      RunWordPrefix(m, u, t, j - 1);
      WordNextStep(Finish(m).tokens, u, t, j);
    }
  }

  /** The first character starts the word, after finishing what the machine was building unless the word continues it. */
  lemma WordFirstStep(m: Machine, c: char, t: string)
    requires IsToken(t) && ToLower(c) == t[0]
    requires m.current == [] || (IsPunctuation(t[0]) && !IsPunctuation(m.current[|m.current| - 1]))
    ensures Step(m, c) == Machine(Finish(m).tokens, [t[0]])
  {
    assert !IsWhitespace(c);
  }

  /** Each later character of the word is appended to it. */
  lemma WordNextStep(done: seq<string>, u: string, t: string, j: nat)
    requires IsToken(t) && Spells(u, t) && 2 <= j <= |u|
    ensures Step(Machine(done, t[..j - 1]), u[j - 1]) == Machine(done, t[..j])
  {
    var c := u[j - 1];
    assert ToLower(c) == t[j - 1] && !IsWhitespace(c);
    if IsPunctuation(c) {
      assert IsPunctuation(t[j - 2]);
    }
    assert t[..j - 1] + [t[j - 1]] == t[..j];
  }

  lemma RunWord(m: Machine, u: string, t: string)
    requires IsToken(t) && Spells(u, t)
    requires m.current == [] || (IsPunctuation(t[0]) && !IsPunctuation(m.current[|m.current| - 1]))
    ensures Run(m, u) == Machine(Finish(m).tokens, t)
  {
    RunWordPrefix(m, u, t, |u|);
    assert u[..|u|] == u && t[..|t|] == t;
  }

  lemma SeparablePrefix(ts: seq<string>, n: nat)
    requires Separable(ts) && n <= |ts|
    ensures Separable(ts[..n])
  {
    assert forall i :: 0 <= i < n ==> ts[..n][i] == ts[i];
  }

  /**
   * A space finishes the token being built, and so does a punctuation-led
   * word after a token that does not end in punctuation; the word is then
   * built from scratch.
   */
  lemma RunSeparatorThenWord(done: seq<string>, last: string, sep: string, u: string, t: string)
    requires last != [] && IsToken(t) && Spells(u, t)
    requires sep == " " || (sep == "" && IsPunctuation(t[0]) && !IsPunctuation(last[|last| - 1]))
    ensures Run(Machine(done, last), sep + u) == Machine(done + [last], t)
  {
    var m := Machine(done, last);
    if sep == " " {
      RunAppend(m, " ", u);
      assert " "[..0] == [];
      assert Run(m, " ") == Step(m, ' ') == Machine(done + [last], []);
      RunWord(Machine(done + [last], []), u, t);
    } else {
      assert sep + u == u;
      RunWord(m, u, t);
    }
  }

  /**
   * Reading the piece of `t` after a text that has left the machine
   * building `last` finishes `last` and moves on to building `t`.
   */
  lemma RunPiece(text: string, done: seq<string>, last: string, t: string)
    requires last != [] && IsToken(t)
    requires IsPunctuation(t[0]) ==> !IsPunctuation(last[|last| - 1])
    requires Run(Start, text) == Machine(done, last)
    ensures Run(Start, text + Piece(done + [last], t)) == Machine(done + [last], t)
  {
    var init := done + [last];
    assert init[..|init| - 1] == done;
    assert AnyNonEmpty(init);
    PieceSpells(t);
    var sep := if SpaceBefore(init, t) then " " else "";
    var u := if CapitalizedAfter(init) then Capitalize(t) else t;
    assert Piece(init, t) == sep + u;
    RunAppend(Start, text, sep + u);
    RunSeparatorThenWord(done, last, sep, u, t);
  }

  /** The machine after reading the formatted text holds every token but the last, and is building the last. */
  lemma {:induction false} RunFormatted(ts: seq<string>)
    requires Separable(ts) && ts != []
    ensures Run(Start, Formatted(ts)) == Machine(ts[..|ts| - 1], ts[|ts| - 1])
  {
    if |ts| == 1 {
      RunFormattedOne(ts);
    } else {
      SeparablePrefix(ts, |ts| - 1);
      RunFormatted(ts[..|ts| - 1]);
      assert IsToken(ts[|ts| - 1]) && IsToken(ts[|ts| - 2]);
      RunFormattedSnoc(ts);
    }
  }

  lemma RunFormattedOne(ts: seq<string>)
    requires Separable(ts) && |ts| == 1
    ensures Run(Start, Formatted(ts)) == Machine([], ts[0])
  {
    var t := ts[0];
    assert ts == [] + [t];
    FormattedSnoc([], t);
    PieceSpells(t);
    assert Formatted(ts) == Capitalize(t);
    RunWord(Start, Capitalize(t), t);
  }

  lemma RunFormattedSnoc(ts: seq<string>)
    requires |ts| >= 2 && IsToken(ts[|ts| - 1]) && ts[|ts| - 2] != []
    requires IsPunctuation(ts[|ts| - 1][0]) ==> !IsPunctuation(ts[|ts| - 2][|ts[|ts| - 2]| - 1])
    requires var n := |ts| - 1;
      Run(Start, Formatted(ts[..n])) == Machine(ts[..n][..n - 1], ts[..n][n - 1])
    ensures Run(Start, Formatted(ts)) == Machine(ts[..|ts| - 1], ts[|ts| - 1])
  {
    var n := |ts| - 1;
    var init, t := ts[..n], ts[n];
    assert Formatted(ts) == Formatted(init) + Piece(init, t);
    var done, last := init[..n - 1], init[n - 1];
    InitLast(init);
    assert last == ts[n - 1];
    RunPiece(Formatted(init), done, last, t);
  }

  /** Tokenizing the formatted text gives back the tokens. */
  lemma FormatThenTokenize(ts: seq<string>)
    requires Separable(ts)
    ensures Tokens(Formatted(ts)) == ts
  {
    if ts == [] {
      assert Formatted(ts) == "";
    } else {
      RunFormatted(ts);
      InitLast(ts);
    }
  }

  /**
   * Without the separation condition the round trip fails: two
   * punctuation tokens are written side by side and read back as one.
   */
  lemma PunctuationMerges()
    ensures Formatted(["!", "!"]) == "!!"
    ensures Tokens("!!") == ["!!"]
  {
    FormattedSnoc(["!"], "!");
    assert ["!", "!"][..1] == ["!"];
    FormattedSnoc([], "!");
    assert Run(Start, "!") == Machine([], "!") by {
      assert "!"[..0] == [];
    }
    assert "!!"[..1] == "!";
  }
}
