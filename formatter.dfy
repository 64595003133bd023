/**
 * `format_output`: join tokens with single spaces, except before
 * punctuation, and capitalize the first token and every token that follows
 * one starting with '.', ';', '!' or '?'.
 */
module Formatter {
  import opened Text

  /** The first character is upper-cased (ASCII only), the rest is kept. */
  function Capitalize(word: string): (r: string)
    ensures |r| == |word|
    ensures word != [] ==> r[0] == ToUpper(word[0]) && r[1..] == word[1..]
  {
    if word == [] then [] else [ToUpper(word[0])] + word[1..]
  }

  /** A token that makes the next one start a sentence. */
  predicate EndsSentence(t: string)
  {
    t != [] && (t[0] == '.' || t[0] == ';' || t[0] == '!' || t[0] == '?')
  }

  /** Some token of `ts` is non-empty. */
  predicate AnyNonEmpty(ts: seq<string>)
  {
    ts != [] && (AnyNonEmpty(ts[..|ts| - 1]) || ts[|ts| - 1] != [])
  }

  /** A space goes before `t` when something precedes it and `t` starts with a non-punctuation character. */
  predicate SpaceBefore(prev: seq<string>, t: string)
  {
    AnyNonEmpty(prev) && t != [] && !IsPunctuation(t[0])
  }

  /** `t` is capitalized when it is first or follows a sentence-ending token. */
  predicate CapitalizedAfter(prev: seq<string>)
  {
    prev == [] || EndsSentence(prev[|prev| - 1])
  }

  /** What `t` contributes to the output, given the tokens before it. */
  function Piece(prev: seq<string>, t: string): string
  {
    (if SpaceBefore(prev, t) then " " else "") + (if CapitalizedAfter(prev) then Capitalize(t) else t)
  }

  /** The formatted text: each token's piece, in order. */
  function Formatted(ts: seq<string>): string
  {
    if ts == [] then "" else Formatted(ts[..|ts| - 1]) + Piece(ts[..|ts| - 1], ts[|ts| - 1])
  }

  lemma {:induction false} FormattedLength(ts: seq<string>)
    ensures |Formatted(ts)| == |Concat(ts)| + Spaces(ts)
  {
    if ts != [] {
      FormattedLength(ts[..|ts| - 1]);
    }
  }

  /** The number of spaces inserted. */
  function Spaces(ts: seq<string>): nat
  {
    if ts == [] then 0
    else Spaces(ts[..|ts| - 1]) + (if SpaceBefore(ts[..|ts| - 1], ts[|ts| - 1]) then 1 else 0)
  }

  lemma FormattedSnoc(ts: seq<string>, t: string)
    ensures Formatted(ts + [t]) == Formatted(ts) + Piece(ts, t)
    ensures AnyNonEmpty(ts + [t]) <==> AnyNonEmpty(ts) || t != []
    ensures CapitalizedAfter(ts + [t]) <==> EndsSentence(t)
  {
    assert (ts + [t])[..|ts|] == ts;
  }

  lemma {:induction false} AnyNonEmptyWitness(ts: seq<string>)
    ensures AnyNonEmpty(ts) <==> exists j :: 0 <= j < |ts| && ts[j] != []
  {
    if ts != [] {
      var init := ts[..|ts| - 1];
      AnyNonEmptyWitness(init);
      if j :| 0 <= j < |ts| && ts[j] != [] {
        if j < |init| {
          assert init[j] == ts[j];
        }
      }
      if j :| 0 <= j < |init| && init[j] != [] {
        assert ts[j] == init[j];
      }
    }
  }

  /** The output is empty exactly when every token is. */
  lemma {:induction false} FormattedEmpty(ts: seq<string>)
    ensures Formatted(ts) == [] <==> !AnyNonEmpty(ts)
  {
    if ts != [] {
      var init, t := ts[..|ts| - 1], ts[|ts| - 1];
      FormattedEmpty(init);
      assert |Capitalize(t)| == |t|;
    }
  }

  /** Formatting more tokens only appends to the output. */
  lemma {:induction false} FormattedPrefix(ts: seq<string>, j: nat)
    requires j <= |ts|
    ensures Formatted(ts[..j]) <= Formatted(ts)
    decreases |ts| - j
  {
    if j < |ts| {
      var pre := ts[..j + 1];
      assert pre[..j] == ts[..j];
      assert Formatted(pre) == Formatted(ts[..j]) + Piece(ts[..j], ts[j]);
      FormattedPrefix(ts, j + 1);
    } else {
      assert ts[..j] == ts;
    }
  }

  /** The output starts with the first token, capitalized. */
  lemma FormattedStartsCapitalized(ts: seq<string>)
    requires ts != []
    ensures Capitalize(ts[0]) <= Formatted(ts)
  {
    TokenInOutput(ts, 0);
    assert ts[..0] == [];
    assert Formatted(ts[..0]) + "" == [];
  }

  /**
   * Token i appears in the output right after the text of the tokens before
   * it: preceded by a space exactly when something non-empty came before and
   * it starts with a non-punctuation character, and capitalized exactly when
   * it is first or follows a sentence-ending token.
   */
  lemma TokenInOutput(ts: seq<string>, i: nat)
    requires i < |ts|
    ensures var sep := if AnyNonEmpty(ts[..i]) && ts[i] != [] && !IsPunctuation(ts[i][0]) then " " else "";
      var word := if i == 0 || EndsSentence(ts[i - 1]) then Capitalize(ts[i]) else ts[i];
      Formatted(ts[..i]) + sep + word <= Formatted(ts)
  {
    FormattedPrefix(ts, i + 1);
    PieceAt(ts, i);
  }

  lemma PieceAt(ts: seq<string>, i: nat)
    requires i < |ts|
    ensures var sep := if AnyNonEmpty(ts[..i]) && ts[i] != [] && !IsPunctuation(ts[i][0]) then " " else "";
      var word := if i == 0 || EndsSentence(ts[i - 1]) then Capitalize(ts[i]) else ts[i];
      Formatted(ts[..i + 1]) == Formatted(ts[..i]) + sep + word
  {
    var prev := ts[..i];
    TakeSnoc(ts, i);
    FormattedSnoc(prev, ts[i]);
    var sep := if SpaceBefore(prev, ts[i]) then " " else "";
    var word := if CapitalizedAfter(prev) then Capitalize(ts[i]) else ts[i];
    assert i > 0 ==> prev[i - 1] == ts[i - 1];
    AppendAssociative(Formatted(prev), sep, word);
  }

  /** `format_output`. */
  method FormatOutput(tokens: seq<string>) returns (output: string)
    ensures output == Formatted(tokens)
  {
    output := "";
    var capitalizeNext := true;
    var i := 0;
    while i < |tokens|
      invariant 0 <= i <= |tokens|
      invariant output == Formatted(tokens[..i])
      invariant capitalizeNext == CapitalizedAfter(tokens[..i])
    {
      var token := tokens[i];
      ghost var prev, before := tokens[..i], output;
      assert tokens[..i + 1] == prev + [token];
      FormattedSnoc(prev, token);
      FormattedEmpty(prev);
      if !(token == [] || IsPunctuation(token[0]) || output == []) {
        output := output + " ";
      }
      ghost var spaced := output;
      if capitalizeNext {
        capitalizeNext := false;
        output := output + Capitalize(token);
      } else {
        output := output + token;
      }
      assert output == before + Piece(prev, token) by {
        ghost var sep := if SpaceBefore(prev, token) then " " else "";
        ghost var word := if CapitalizedAfter(prev) then Capitalize(token) else token;
        assert spaced == before + sep && output == spaced + word;
        AppendAssociative(before, sep, word);
      }
      if token != [] && (token[0] == '.' || token[0] == ';' || token[0] == '!' || token[0] == '?') {
        capitalizeNext := true;
      }
      i := i + 1;
    }
    assert tokens[..i] == tokens;
  }
}
