/**
 * `tokenize_input`: a character-level state machine that splits on
 * whitespace, lower-cases ASCII, and starts a new token where punctuation
 * follows a character that is not punctuation.
 */
module Tokenizer {
  import opened Text

  /** The machine's state: the finished tokens and the token being built. */
  datatype Machine = Machine(tokens: seq<string>, current: string)

  const Start := Machine([], [])

  /** `finish_token`: push the current token, if it is non-empty, and clear it. */
  function Finish(m: Machine): Machine
  {
    if m.current == [] then m else Machine(m.tokens + [m.current], [])
  }

  /** What one character does to the machine. */
  function Step(m: Machine, c: char): Machine
  {
    if IsWhitespace(c) then Finish(m)
    else if IsPunctuation(c) then
      var m' := if m.current != [] && IsPunctuation(m.current[|m.current| - 1]) then m else Finish(m);
      Machine(m'.tokens, m'.current + [ToLower(c)])
    else
      Machine(m.tokens, m.current + [ToLower(c)])
  }

  /** The machine after reading `s` from `m`. */
  function Run(m: Machine, s: string): Machine
  {
    if s == [] then m else Step(Run(m, s[..|s| - 1]), s[|s| - 1])
  }

  /** The tokens of `s`. */
  function Tokens(s: string): seq<string>
  {
    Finish(Run(Start, s)).tokens
  }

  /** The input with whitespace dropped and ASCII lower-cased. */
  function Normalize(s: string): string
  {
    if s == [] then []
    else Normalize(s[..|s| - 1]) + (if IsWhitespace(s[|s| - 1]) then [] else [ToLower(s[|s| - 1])])
  }

  /** What the tokenizer may build: no whitespace, no upper case, punctuation only before the rest. */
  ghost predicate Shaped(t: string)
  {
    && (forall i :: 0 <= i < |t| ==> !IsWhitespace(t[i]) && !IsUpper(t[i]))
    && (forall i, j :: 0 <= i < j < |t| && !IsPunctuation(t[i]) ==> !IsPunctuation(t[j]))
  }

  /** A token: a non-empty run of ASCII punctuation followed by a run of other non-whitespace characters. */
  ghost predicate IsToken(t: string)
  {
    t != [] && Shaped(t)
  }

  ghost predicate Good(m: Machine)
  {
    (forall i :: 0 <= i < |m.tokens| ==> IsToken(m.tokens[i])) && Shaped(m.current)
  }

  lemma FinishKeepsGood(m: Machine)
    requires Good(m)
    ensures Good(Finish(m)) && Finish(m).current == []
    ensures Concat(Finish(m).tokens) + Finish(m).current == Concat(m.tokens) + m.current
  {
    if m.current != [] {
      ConcatSnoc(m.tokens, m.current);
    }
  }

  lemma StepKeepsGood(m: Machine, c: char)
    requires Good(m)
    ensures Good(Step(m, c))
    ensures Concat(Step(m, c).tokens) + Step(m, c).current ==
      Concat(m.tokens) + m.current + (if IsWhitespace(c) then [] else [ToLower(c)])
  {
    StepShaped(m, c);
    StepConcat(m, c);
  }

  lemma StepShaped(m: Machine, c: char)
    requires Good(m)
    ensures Good(Step(m, c))
  {
    FinishKeepsGood(m);
    if !IsWhitespace(c) {
      var m' := if IsPunctuation(c) && !(m.current != [] && IsPunctuation(m.current[|m.current| - 1]))
        then Finish(m) else m;
      assert Step(m, c) == Machine(m'.tokens, m'.current + [ToLower(c)]);
      var t := m'.current + [ToLower(c)];
      if IsPunctuation(c) && m'.current != [] {
        var n := |m'.current| - 1;
        assert IsPunctuation(m'.current[n]);
        forall i | 0 <= i < n ensures IsPunctuation(t[i]) {
          assert t[i] == m'.current[i];
        }
      }
      assert Shaped(t);
    }
  }

  lemma StepConcat(m: Machine, c: char)
    requires Good(m)
    ensures Concat(Step(m, c).tokens) + Step(m, c).current ==
      Concat(m.tokens) + m.current + (if IsWhitespace(c) then [] else [ToLower(c)])
  {
    FinishKeepsGood(m);
    if IsWhitespace(c) {
      assert Concat(m.tokens) + m.current + [] == Concat(m.tokens) + m.current;
    } else {
      var m' := if IsPunctuation(c) && !(m.current != [] && IsPunctuation(m.current[|m.current| - 1]))
        then Finish(m) else m;
      assert Step(m, c) == Machine(m'.tokens, m'.current + [ToLower(c)]);
      assert Concat(m'.tokens) + m'.current == Concat(m.tokens) + m.current;
      AppendAssociative(Concat(m'.tokens), m'.current, [ToLower(c)]);
    }
  }

  lemma {:induction false} RunKeepsGood(s: string)
    ensures Good(Run(Start, s))
    ensures Concat(Run(Start, s).tokens) + Run(Start, s).current == Normalize(s)
  {
    if s != [] {
      RunKeepsGood(s[..|s| - 1]);
      StepKeepsGood(Run(Start, s[..|s| - 1]), s[|s| - 1]);
    }
  }

  /**
   * The tokens of any input are non-empty, free of whitespace and upper
   * case, shaped as punctuation then word, and concatenate to the
   * normalized input.
   */
  lemma TokensProperties(s: string)
    ensures forall i :: 0 <= i < |Tokens(s)| ==> IsToken(Tokens(s)[i])
    ensures Concat(Tokens(s)) == Normalize(s)
  {
    RunKeepsGood(s);
    FinishKeepsGood(Run(Start, s));
  }

  /** The `finish_token` helper, on the two variables it updates. */
  method FinishToken(current: string, tokens: seq<string>) returns (current': string, tokens': seq<string>)
    ensures Machine(tokens', current') == Finish(Machine(tokens, current))
  {
    current', tokens' := current, tokens;
    if current' != [] {
      tokens' := tokens' + [current'];
      current' := [];
    }
  }

  /** `tokenize_input` over a character sequence (the reader's I/O errors are not modelled). */
  method TokenizeInput(input: string) returns (tokens: seq<string>)
    ensures tokens == Tokens(input)
    ensures forall i :: 0 <= i < |tokens| ==> IsToken(tokens[i])
    ensures Concat(tokens) == Normalize(input)
  {
    tokens := [];
    var currentToken: string := [];
    var i := 0;
    while i < |input|
      invariant 0 <= i <= |input|
      invariant Machine(tokens, currentToken) == Run(Start, input[..i])
    {
      var ch := input[i];
      assert input[..i + 1][..i] == input[..i];
      if IsWhitespace(ch) {
        currentToken, tokens := FinishToken(currentToken, tokens);
      } else if IsPunctuation(ch) {
        if !(currentToken != [] && IsPunctuation(currentToken[|currentToken| - 1])) {
          currentToken, tokens := FinishToken(currentToken, tokens);
        }
        currentToken := currentToken + [ToLower(ch)];
      } else {
        currentToken := currentToken + [ToLower(ch)];
      }
      i := i + 1;
    }
    assert input[..i] == input;
    currentToken, tokens := FinishToken(currentToken, tokens);
    TokensProperties(input);
  }
}
