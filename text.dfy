/**
 * Character classes, case mappings and string concatenation shared by the
 * tokenizer and the formatter.
 */
module Text {

  /** Unicode White_Space, the set `char::is_whitespace` tests. */
  predicate IsWhitespace(c: char) {
    || ('\t' <= c <= '\r')
    || c == ' '
    || c == '\U{0085}'
    || c == '\U{00A0}'
    || c == '\U{1680}'
    || ('\U{2000}' <= c <= '\U{200A}')
    || c == '\U{2028}'
    || c == '\U{2029}'
    || c == '\U{202F}'
    || c == '\U{205F}'
    || c == '\U{3000}'
  }

  /** The 32 ASCII punctuation characters, as `char::is_ascii_punctuation` has them. */
  predicate IsPunctuation(c: char) {
    || ('!' <= c <= '/')
    || (':' <= c <= '@')
    || ('[' <= c <= '`')
    || ('{' <= c <= '~')
  }

  predicate IsUpper(c: char) {
    'A' <= c <= 'Z'
  }

  predicate IsLower(c: char) {
    'a' <= c <= 'z'
  }

  /** `char::to_ascii_lowercase`: only 'A'..'Z' change. */
  function ToLower(c: char): (r: char)
    ensures !IsUpper(r)
    ensures IsPunctuation(r) <==> IsPunctuation(c)
    ensures IsWhitespace(r) <==> IsWhitespace(c)
    ensures !IsUpper(c) ==> r == c
  {
    if IsUpper(c) then (c as int + 32) as char else c
  }

  /** Upper-casing of a first letter, restricted to ASCII: only 'a'..'z' change. */
  function ToUpper(c: char): (r: char)
    ensures !IsLower(r)
    ensures IsPunctuation(r) <==> IsPunctuation(c)
    ensures !IsUpper(c) ==> ToLower(r) == c
  {
    if IsLower(c) then (c as int - 32) as char else c
  }

  /** The strings of `ts` one after another, with nothing between them. */
  function Concat(ts: seq<string>): string
  {
    if ts == [] then [] else Concat(ts[..|ts| - 1]) + ts[|ts| - 1]
  }

  lemma ConcatSnoc(ts: seq<string>, t: string)
    ensures Concat(ts + [t]) == Concat(ts) + t
  {
    assert (ts + [t])[..|ts|] == ts;
  }

  lemma AppendAssociative<T>(a: seq<T>, b: seq<T>, c: seq<T>)
    ensures (a + b) + c == a + (b + c)
  {
  }

  lemma InitLast<T>(s: seq<T>)
    requires s != []
    ensures s[..|s| - 1] + [s[|s| - 1]] == s
  {
  }

  lemma TakeSnoc<T>(s: seq<T>, i: nat)
    requires i < |s|
    ensures s[..i + 1] == s[..i] + [s[i]]
  {
  }
}
