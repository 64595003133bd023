/**
 * Chain states and the append-only registry that gives each distinct state
 * a dense id (the `Vec<State>` implementation of the state index).
 */
module States {
  import opened Options

  type Token = string

  /** One state of the chain: the tokens of one window, compared by content. */
  datatype State = State(tokens: seq<Token>)

  /** The last `min(|tokens|, size)` tokens of `tokens`, in order, as one state. */
  function FromSlice(tokens: seq<Token>, size: nat): (s: State)
    ensures |s.tokens| == if |tokens| < size then |tokens| else size
    ensures tokens == tokens[..|tokens| - |s.tokens|] + s.tokens
  {
    var index := if |tokens| < size then 0 else |tokens| - size;
    State(tokens[index..])
  }

  /** Linear scan for the first position holding `x`. */
  function Position<T(==)>(s: seq<T>, x: T): (r: Option<nat>)
    ensures r.None? <==> x !in s
    ensures r.Some? ==> r.value < |s| && s[r.value] == x
    ensures r.Some? ==> forall q :: 0 <= q < r.value ==> s[q] != x
  {
    if s == [] then None
    else if s[0] == x then Some(0)
    else match Position(s[1..], x)
      case None => None
      case Some(p) => Some(p + 1)
  }

  /** Extending a sequence does not move the first position of an element it already holds. */
  lemma PositionOfPrefix<T>(d: seq<T>, d': seq<T>, x: T)
    requires d <= d' && x in d
    ensures Position(d', x) == Position(d, x)
  {
    var p := Position(d, x).value;
    var q := Position(d', x).value;
    assert d'[p] == x;
    assert q <= p;
    assert d[q] == x;
  }

  /** The registry: states in id order; the id of a state is its position. */
  class StateIndex {
    var states: seq<State>

    /** An empty registry (`Default::default()`). */
    constructor ()
      ensures states == []
    {
      states := [];
    }

    /** The state registered under `index`, if any. */
    function GetState(index: nat): (r: Option<State>)
      reads this
      ensures r.Some? <==> index < |states|
      ensures r.Some? ==> r.value == states[index]
    {
      if index < |states| then Some(states[index]) else None
    }

    /** The id of `s`: its first position, by content equality. */
    function GetIndex(s: State): (r: Option<nat>)
      reads this
      ensures r.None? <==> s !in states
      ensures r.Some? ==> r.value < |states| && states[r.value] == s
      ensures r.Some? ==> forall q :: 0 <= q < r.value ==> states[q] != s
    {
      Position(states, s)
    }

    /** `Vec::insert`: `s` goes in at `index`, later entries shift up by one. */
    method Insert(index: nat, s: State)
      requires index <= |states|
      modifies this
      ensures states == old(states[..index]) + [s] + old(states[index..])
      ensures index == old(|states|) ==> states == old(states) + [s]
    {
      states := states[..index] + [s] + states[index..];
    }

    /** The number of registered states: the first index with no state under it. */
    function Len(): (n: nat)
      reads this
      ensures GetState(n).None? && (n > 0 ==> GetState(n - 1).Some?)
    {
      |states|
    }
  }
}
