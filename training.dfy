/**
 * Training: a window of width k slides over the tokens; each new window
 * content gets the next dense id, and each adjacent pair of windows adds
 * one to the count at (row = id of the newer window, column = id of the
 * older one).
 */
module Training {
  import opened Options
  import opened States

  /**
   * A trained model. The sparse matrix is a map from (row, column) to a
   * count; `dim` is the side of the square matrix as it was allocated.
   */
  datatype MarkovGenerator = MarkovGenerator(
    mat: map<(nat, nat), nat>,
    dim: nat,
    states: seq<State>,
    stateSize: nat)

  /** The windows of width k, one per start position. */
  function Windows(tokens: seq<Token>, k: nat): (ws: seq<State>)
    requires 1 <= k <= |tokens| + 1
    ensures |ws| == |tokens| - k + 1
  {
    seq(|tokens| - k + 1, i requires 0 <= i < |tokens| - k + 1 => State(tokens[i..i + k]))
  }

  lemma WindowAt(tokens: seq<Token>, k: nat, i: nat)
    requires 1 <= k && i + k <= |tokens|
    ensures Windows(tokens, k)[i] == State(tokens[i..i + k])
  {
  }

  /** The distinct elements of `s` in order of first appearance. */
  function Distinct<T(==)>(s: seq<T>): seq<T>
  {
    if s == [] then []
    else
      var d := Distinct(s[..|s| - 1]);
      if s[|s| - 1] in d then d else d + [s[|s| - 1]]
  }

  /** The id of a registered state: its position in the registry. */
  function Id(d: seq<State>, x: State): (r: nat)
    requires x in d
    ensures r < |d| && d[r] == x
  {
    Position(d, x).value
  }

  /** Every element of `ws` is registered in `d`. */
  predicate AllIn(ws: seq<State>, d: seq<State>)
  {
    forall w :: w in ws ==> w in d
  }

  /** The recorded transitions: for each window after the first, (its id, its predecessor's id). */
  function Transitions(ws: seq<State>, d: seq<State>): seq<(nat, nat)>
    requires AllIn(ws, d)
  {
    if |ws| <= 1 then []
    else Transitions(ws[..|ws| - 1], d) + [(Id(d, ws[|ws| - 1]), Id(d, ws[|ws| - 2]))]
  }

  /** How many times `x` occurs in `s`. */
  function Occurrences<T(==)>(s: seq<T>, x: T): nat
  {
    if s == [] then 0
    else Occurrences(s[..|s| - 1], x) + (if s[|s| - 1] == x then 1 else 0)
  }

  /** One more transition at `p`: add one to its count, inserting it with count 1 when absent. */
  function Bump(m: map<(nat, nat), nat>, p: (nat, nat)): map<(nat, nat), nat>
  {
    m[p := if p in m then m[p] + 1 else 1]
  }

  /** The sparse count matrix of a list of transitions, recorded one by one. */
  function CountMatrix(ps: seq<(nat, nat)>): map<(nat, nat), nat>
  {
    if ps == [] then map[] else Bump(CountMatrix(ps[..|ps| - 1]), ps[|ps| - 1])
  }

  /** The model that training on `tokens` with chain order k produces. */
  function Trained(tokens: seq<Token>, k: nat): MarkovGenerator
    requires 1 <= k <= |tokens| + 1
  {
    var ws := Windows(tokens, k);
    var d := Distinct(ws);
    DistinctMembers(ws);
    MarkovGenerator(CountMatrix(Transitions(ws, d)), |tokens| - (k - 1), d, k)
  }

  /** The sum of all stored counts. */
  ghost function Total(m: map<(nat, nat), nat>): nat
    decreases |m|
  {
    if m == map[] then 0
    else
      var p :| p in m;
      assert |m - {p}| == |m| - 1 by { assert (m - {p}).Keys == m.Keys - {p}; }
      m[p] + Total(m - {p})
  }

  /** Structural facts a model must satisfy for prediction. */
  predicate WellFormed(g: MarkovGenerator)
  {
    && |g.states| <= g.dim
    && forall p :: p in g.mat ==> p.0 < |g.states| && p.1 < |g.states| && g.mat[p] >= 1
  }

  // ---------------------------------------------------------------------------
  // Distinct: ids in order of first appearance

  lemma {:induction false} DistinctMembers<T>(s: seq<T>)
    ensures forall x :: x in Distinct(s) <==> x in s
  {
    if s != [] {
      DistinctMembers(s[..|s| - 1]);
      assert s == s[..|s| - 1] + [s[|s| - 1]];
    }
  }

  lemma {:induction false} DistinctUnique<T>(s: seq<T>)
    ensures forall i, j :: 0 <= i < j < |Distinct(s)| ==> Distinct(s)[i] != Distinct(s)[j]
  {
    if s != [] {
      DistinctUnique(s[..|s| - 1]);
    }
  }

  lemma {:induction false} DistinctLength<T>(s: seq<T>)
    ensures |Distinct(s)| <= |s|
  {
    if s != [] {
      DistinctLength(s[..|s| - 1]);
    }
  }

  lemma PositionSnoc<T>(s: seq<T>, y: T, x: T)
    requires x in s + [y]
    ensures x in s ==> Position(s + [y], x) == Position(s, x)
    ensures x !in s ==> Position(s + [y], x) == Some(|s|)
  {
    if x in s {
      PositionOfPrefix(s, s + [y], x);
    }
  }

  /** State j of the registry is the j-th distinct window: first appearances are strictly ordered. */
  lemma {:induction false} DistinctFirstAppearance<T>(s: seq<T>)
    ensures forall i :: 0 <= i < |Distinct(s)| ==> Distinct(s)[i] in s
    ensures forall i, j :: 0 <= i < j < |Distinct(s)| ==>
      Position(s, Distinct(s)[i]).value < Position(s, Distinct(s)[j]).value
  {
    if s != [] {
      var init, last := s[..|s| - 1], s[|s| - 1];
      assert s == init + [last];
      DistinctFirstAppearance(init);
      var d := Distinct(init);
      assert Distinct(s) == if last in d then d else d + [last];
      forall i, j | 0 <= i < j < |Distinct(s)|
        ensures Position(s, Distinct(s)[i]).value < Position(s, Distinct(s)[j]).value
      {
        if j < |d| {
          PositionsAfterSnoc(init, last, d[i], d[j]);
        } else {
          DistinctMembers(init);
          PositionsAfterSnoc(init, last, d[i], last);
        }
      }
    }
  }

  /** Appending `last` keeps the order of first positions in `init`, and puts a new `last` after all of them. */
  lemma PositionsAfterSnoc<T>(init: seq<T>, last: T, x: T, y: T)
    requires x in init
    requires y in init ==> Position(init, x).value < Position(init, y).value
    requires y !in init ==> y == last
    ensures Position(init + [last], x).value < Position(init + [last], y).value
  {
    PositionSnoc(init, last, x);
    PositionSnoc(init, last, y);
  }

  // ---------------------------------------------------------------------------
  // Counts

  lemma {:induction false} OccurrencesPositive<T>(s: seq<T>, x: T)
    ensures Occurrences(s, x) > 0 <==> x in s
  {
    if s != [] {
      OccurrencesPositive(s[..|s| - 1], x);
      assert s == s[..|s| - 1] + [s[|s| - 1]];
    }
  }

  lemma {:induction false} OccurrencesBound<T>(s: seq<T>, x: T)
    ensures Occurrences(s, x) <= |s|
  {
    if s != [] {
      OccurrencesBound(s[..|s| - 1], x);
    }
  }

  lemma CountMatrixSnoc(ps: seq<(nat, nat)>, p: (nat, nat))
    ensures CountMatrix(ps + [p]) == Bump(CountMatrix(ps), p)
  {
    assert (ps + [p])[..|ps|] == ps;
  }

  lemma {:induction false} TotalRemove(m: map<(nat, nat), nat>, p: (nat, nat))
    requires p in m
    ensures Total(m) == m[p] + Total(m - {p})
    decreases |m|
  {
    var q :| q in m && Total(m) == m[q] + Total(m - {q});
    if q != p {
      assert |m - {q}| == |m| - 1 by { assert (m - {q}).Keys == m.Keys - {q}; }
      TotalRemove(m - {q}, p);
      assert |m - {p}| == |m| - 1 by { assert (m - {p}).Keys == m.Keys - {p}; }
      TotalRemove(m - {p}, q);
      assert m - {q} - {p} == m - {p} - {q};
    }
  }

  lemma TotalBump(m: map<(nat, nat), nat>, p: (nat, nat))
    ensures Total(Bump(m, p)) == Total(m) + 1
  {
    var m' := Bump(m, p);
    TotalRemove(m', p);
    if p in m {
      TotalRemove(m, p);
      assert m' - {p} == m - {p};
    } else {
      assert m' - {p} == m;
    }
  }

  /** The stored counts sum to the number of recorded transitions. */
  lemma {:induction false} TotalCountMatrix(ps: seq<(nat, nat)>)
    ensures Total(CountMatrix(ps)) == |ps|
  {
    if ps != [] {
      var init := ps[..|ps| - 1];
      TotalCountMatrix(init);
      TotalBump(CountMatrix(init), ps[|ps| - 1]);
    }
  }

  /** Exact sparsity and the meaning of each entry: the count of (r, c) is how often (r, c) was recorded. */
  lemma {:induction false} CountMatrixEntries(ps: seq<(nat, nat)>)
    ensures forall p :: p in CountMatrix(ps) <==> Occurrences(ps, p) > 0
    ensures forall p :: p in CountMatrix(ps) ==> CountMatrix(ps)[p] == Occurrences(ps, p)
  {
    if ps != [] {
      CountMatrixEntries(ps[..|ps| - 1]);
    }
  }

  /** Every stored count is at least 1 and at most the number of transitions. */
  lemma CountMatrixBounds(ps: seq<(nat, nat)>)
    ensures forall p :: p in CountMatrix(ps) ==> 1 <= CountMatrix(ps)[p] <= |ps|
  {
    CountMatrixEntries(ps);
    forall p ensures Occurrences(ps, p) <= |ps| {
      OccurrencesBound(ps, p);
    }
  }

  /** Registering further states leaves the ids of earlier windows, and so their transitions, unchanged. */
  lemma {:induction false} TransitionsExtendRegistry(ws: seq<State>, d: seq<State>, d': seq<State>)
    requires AllIn(ws, d)
    requires d <= d'
    ensures AllIn(ws, d')
    ensures Transitions(ws, d') == Transitions(ws, d)
  {
    if |ws| > 1 {
      var init := ws[..|ws| - 1];
      assert forall w :: w in init ==> w in ws;
      TransitionsExtendRegistry(init, d, d');
      PositionOfPrefix(d, d', ws[|ws| - 1]);
      PositionOfPrefix(d, d', ws[|ws| - 2]);
    }
  }

  // ---------------------------------------------------------------------------
  // Training itself

  /** Registering window i: the registry grows by it exactly when it is new. */
  lemma RegisterStep(ws: seq<State>, i: nat, d: seq<State>)
    requires i < |ws| && d == Distinct(ws[..i])
    ensures Distinct(ws[..i + 1]) == if ws[i] in d then d else d + [ws[i]]
    ensures AllIn(ws[..i], d) && AllIn(ws[..i + 1], Distinct(ws[..i + 1]))
  {
    assert ws[..i + 1] == ws[..i] + [ws[i]];
    assert ws[..i + 1][..i] == ws[..i];
    DistinctMembers(ws[..i]);
    DistinctMembers(ws[..i + 1]);
  }

  /** Counting window i: one more transition, (id of window i, id of window i - 1). */
  lemma CountStep(ws: seq<State>, i: nat, d: seq<State>, d': seq<State>)
    requires 0 < i < |ws| && AllIn(ws[..i], d) && d <= d' && ws[i] in d'
    ensures ws[i - 1] in d && AllIn(ws[..i + 1], d')
    ensures Transitions(ws[..i + 1], d') == Transitions(ws[..i], d) + [(Id(d', ws[i]), Id(d, ws[i - 1]))]
  {
    var pre := ws[..i];
    assert ws[..i + 1] == pre + [ws[i]];
    assert pre[i - 1] == ws[i - 1];
    PositionOfPrefix(d, d', ws[i - 1]);
    TransitionsExtendRegistry(pre, d, d');
    TransitionsSnoc(pre, ws[i], d');
  }

  lemma TransitionsSnoc(ws: seq<State>, w: State, d: seq<State>)
    requires ws != [] && AllIn(ws, d) && w in d
    ensures AllIn(ws + [w], d)
    ensures Transitions(ws + [w], d) == Transitions(ws, d) + [(Id(d, w), Id(d, ws[|ws| - 1]))]
  {
    assert (ws + [w])[..|ws|] == ws;
  }

  lemma {:induction false} TransitionsShape(ws: seq<State>, d: seq<State>)
    requires AllIn(ws, d)
    ensures |Transitions(ws, d)| == if ws == [] then 0 else |ws| - 1
    ensures forall p :: p in Transitions(ws, d) ==> p.0 < |d| && p.1 < |d|
  {
    if |ws| > 1 {
      var init := ws[..|ws| - 1];
      assert forall w :: w in init ==> w in ws;
      TransitionsShape(init, d);
    }
  }

  // ---------------------------------------------------------------------------
  // What training produces

  /**
   * The registry after training: pairwise distinct states, exactly the
   * windows of the input, in order of first appearance, no more of them
   * than the matrix was dimensioned for.
   */
  lemma TrainedRegistry(tokens: seq<Token>, k: nat)
    requires 1 <= k <= |tokens| + 1
    ensures var g, ws := Trained(tokens, k), Windows(tokens, k);
      && (forall i, j :: 0 <= i < j < |g.states| ==> g.states[i] != g.states[j])
      && (forall i :: 0 <= i < |ws| ==> ws[i] in g.states)
      && (forall s :: s in g.states ==> s in ws)
      && (forall i, j :: 0 <= i < j < |g.states| ==>
            Position(ws, g.states[i]).value < Position(ws, g.states[j]).value)
      && |g.states| <= g.dim
      && (k <= |tokens| ==> |g.states| >= 1)
  {
    var ws := Windows(tokens, k);
    DistinctUnique(ws);
    DistinctMembers(ws);
    DistinctFirstAppearance(ws);
    DistinctLength(ws);
    if k <= |tokens| {
      assert ws[0] in Distinct(ws);
    }
  }

  /**
   * The matrix after training: exactly sparse, every key a pair of
   * registered ids, each count the number of times that transition was
   * seen, and the counts sum to |tokens| - k.
   */
  lemma TrainedCounts(tokens: seq<Token>, k: nat)
    requires 1 <= k <= |tokens| + 1
    ensures var g, ws := Trained(tokens, k), Windows(tokens, k);
      AllIn(ws, g.states) &&
      var ps := Transitions(ws, g.states);
      && (forall p :: p in g.mat <==> Occurrences(ps, p) > 0)
      && (forall p :: p in g.mat ==> g.mat[p] == Occurrences(ps, p))
      && (forall p :: p in g.mat ==> p.0 < |g.states| && p.1 < |g.states|)
      && (forall p :: p in g.mat ==> 1 <= g.mat[p] <= |tokens| - k)
      && Total(g.mat) == if k <= |tokens| then |tokens| - k else 0
  {
    var ws := Windows(tokens, k);
    var d := Distinct(ws);
    DistinctMembers(ws);
    var ps := Transitions(ws, d);
    TransitionsShape(ws, d);
    CountMatrixEntries(ps);
    CountMatrixBounds(ps);
    TotalCountMatrix(ps);
    forall p | p in CountMatrix(ps) ensures p.0 < |d| && p.1 < |d| {
      OccurrencesPositive(ps, p);
    }
  }

  /** Training yields a model that satisfies what prediction relies on. */
  lemma TrainedWellFormed(tokens: seq<Token>, k: nat)
    requires 1 <= k <= |tokens| + 1
    ensures WellFormed(Trained(tokens, k))
  {
    TrainedRegistry(tokens, k);
    TrainedCounts(tokens, k);
  }

  /** Input of exactly k tokens: one state and an empty matrix. */
  lemma ExactlyOneWindow(tokens: seq<Token>, k: nat)
    requires 1 <= k == |tokens|
    ensures |Trained(tokens, k).states| == 1
    ensures Trained(tokens, k).mat == map[]
  {
    var ws := Windows(tokens, k);
    assert ws[..0] == [];
    assert Distinct(ws) == [ws[0]];
  }

  /**
   * The corpus "a b a b a b" with chain order 1: states [a], [b] get ids 0, 1;
   * the entry (row [b], column [a]) counts 3 and (row [a], column [b]) counts 2.
   */
  lemma AlternatingCorpus()
    ensures Trained(["a", "b", "a", "b", "a", "b"], 1) ==
      MarkovGenerator(map[(1, 0) := 3, (0, 1) := 2], 6, [State(["a"]), State(["b"])], 1)
  {
    var a, b := State(["a"]), State(["b"]);
    var ws := [a, b, a, b, a, b];
    AlternatingWindows();
    AlternatingRegistry(a, b);
    var d := [a, b];
    assert Id(d, a) == 0 && Id(d, b) == 1;
    AlternatingTransitions(a, b);
    AlternatingCounts();
  }

  lemma AlternatingWindows()
    ensures Windows(["a", "b", "a", "b", "a", "b"], 1) ==
      [State(["a"]), State(["b"]), State(["a"]), State(["b"]), State(["a"]), State(["b"])]
  {
    var tokens: seq<Token> := ["a", "b", "a", "b", "a", "b"];
    forall i | 0 <= i < 6 ensures Windows(tokens, 1)[i] == State([tokens[i]]) {
      WindowAt(tokens, 1, i);
    }
  }

  lemma AlternatingRegistry<T>(a: T, b: T)
    requires a != b
    ensures Distinct([a, b, a, b, a, b]) == [a, b]
  {
    var w1, w2, w3, w4, w5, w6 := [a], [a, b], [a, b, a], [a, b, a, b], [a, b, a, b, a], [a, b, a, b, a, b];
    assert w2[..1] == w1 && w3[..2] == w2 && w4[..3] == w3 && w5[..4] == w4 && w6[..5] == w5;
    assert Distinct(w1) == [a];
    assert Distinct(w2) == [a, b];
    assert Distinct(w3) == [a, b];
    assert Distinct(w4) == [a, b];
    assert Distinct(w5) == [a, b];
  }

  lemma AlternatingTransitions(a: State, b: State)
    requires a != b
    ensures Transitions([a, b, a, b, a, b], [a, b]) == [(1, 0), (0, 1), (1, 0), (0, 1), (1, 0)]
  {
    var d := [a, b];
    assert Id(d, a) == 0 && Id(d, b) == 1;
    var w1, w2, w3, w4, w5, w6 := [a], [a, b], [a, b, a], [a, b, a, b], [a, b, a, b, a], [a, b, a, b, a, b];
    assert w2[..1] == w1 && w3[..2] == w2 && w4[..3] == w3 && w5[..4] == w4 && w6[..5] == w5;
    assert Transitions(w2, d) == [(1, 0)];
    assert Transitions(w3, d) == [(1, 0), (0, 1)];
    assert Transitions(w4, d) == [(1, 0), (0, 1), (1, 0)];
    assert Transitions(w5, d) == [(1, 0), (0, 1), (1, 0), (0, 1)];
  }

  lemma AlternatingCounts()
    ensures CountMatrix([(1, 0), (0, 1), (1, 0), (0, 1), (1, 0)]) == map[(1, 0) := 3, (0, 1) := 2]
  {
    var p0: seq<(nat, nat)> := [];
    var p1, p2, p3, p4, p5 := [(1, 0)], [(1, 0), (0, 1)], [(1, 0), (0, 1), (1, 0)],
      [(1, 0), (0, 1), (1, 0), (0, 1)], [(1, 0), (0, 1), (1, 0), (0, 1), (1, 0)];
    assert p1[..0] == p0 && p2[..1] == p1 && p3[..2] == p2 && p4[..3] == p3 && p5[..4] == p4;
    assert CountMatrix(p1) == map[(1, 0) := 1];
    assert CountMatrix(p2) == map[(1, 0) := 1, (0, 1) := 1];
    assert CountMatrix(p3) == map[(1, 0) := 2, (0, 1) := 1];
    assert CountMatrix(p4) == map[(1, 0) := 2, (0, 1) := 2];
  }

  /** The matrix update of one transition: bump a stored count, or insert the entry with count 1. */
  method AddOne(mat: map<(nat, nat), nat>, row: nat, col: nat) returns (mat': map<(nat, nat), nat>)
    ensures mat' == Bump(mat, (row, col))
  {
    if (row, col) in mat {
      mat' := mat[(row, col) := mat[(row, col)] + 1];
    } else {
      mat' := mat[(row, col) := 1];
    }
  }

  /**
   * The registry lookup of `from_tokens`: the id of a known state, or the
   * next id for a new one, which is then inserted at the end.
   */
  method Register(index: StateIndex, state: State, currentRows: nat) returns (row: nat, currentRows': nat)
    requires currentRows == |index.states|
    modifies index
    ensures index.states == if state in old(index.states) then old(index.states) else old(index.states) + [state]
    ensures currentRows' == |index.states|
    ensures state in index.states && row == Id(index.states, state)
  {
    match index.GetIndex(state) {
      case Some(r) =>
        row, currentRows' := r, currentRows;
      case None =>
        row := currentRows;
        index.Insert(row, state);
        currentRows' := currentRows + 1;
        PositionSnoc(old(index.states), state, state);
    }
  }

  /** One iteration of `from_tokens`, on the specification side: the registry and the transitions after window i. */
  lemma TrainStep(ws: seq<State>, i: nat, d: seq<State>)
    requires i < |ws| && d == Distinct(ws[..i])
    ensures var d' := Distinct(ws[..i + 1]);
      && d' == (if ws[i] in d then d else d + [ws[i]])
      && d <= d' && ws[i] in d' && |d'| <= i + 1
      && AllIn(ws[..i], d) && AllIn(ws[..i + 1], d')
      && (i == 0 ==> Transitions(ws[..i + 1], d') == [])
      && (i > 0 ==> ws[i - 1] in d)
      && (i > 0 ==> Transitions(ws[..i + 1], d') == Transitions(ws[..i], d) + [(Id(d', ws[i]), Id(d, ws[i - 1]))])
  {
    RegisterStep(ws, i, d);
    var d' := Distinct(ws[..i + 1]);
    DistinctLength(ws[..i + 1]);
    if i > 0 {
      CountStep(ws, i, d, d');
    } else {
      assert ws[..i + 1] == [ws[i]];
    }
  }

  /** What `from_tokens` has built after the first i windows. */
  ghost predicate Progress(ws: seq<State>, i: nat, d: seq<State>, ps: seq<(nat, nat)>,
                           mat: map<(nat, nat), nat>, currentRows: nat, last: Option<nat>)
  {
    && i <= |ws|
    && d == Distinct(ws[..i]) && currentRows == |d| && AllIn(ws[..i], d)
    && ps == Transitions(ws[..i], d) && mat == CountMatrix(ps)
    && (i == 0 <==> last.None?)
    && (i > 0 ==> ws[i - 1] in d && last == Some(Id(d, ws[i - 1])))
  }

  /** The body of the `from_tokens` loop: window i is registered, then its transition from window i - 1 is counted. */
  method TrainWindow(tokens: seq<Token>, k: nat, i: nat, index: StateIndex, mat: map<(nat, nat), nat>,
                     currentRows: nat, last: Option<nat>, ghost ps: seq<(nat, nat)>)
    returns (mat': map<(nat, nat), nat>, currentRows': nat, last': Option<nat>, ghost ps': seq<(nat, nat)>)
    requires 1 <= k && i + k <= |tokens|
    requires Progress(Windows(tokens, k), i, index.states, ps, mat, currentRows, last)
    modifies index
    ensures Progress(Windows(tokens, k), i + 1, index.states, ps', mat', currentRows', last')
  {
    ghost var ws := Windows(tokens, k);
    ghost var d := index.states;
    var state := FromSlice(tokens[i..i + k], k);
    assert state == ws[i] by {
      WindowAt(tokens, k, i);
      assert tokens[i..i + k][..0] == [];
    }
    TrainStep(ws, i, d);
    var row;
    row, currentRows' := Register(index, state, currentRows);
    mat', ps' := mat, ps;
    if last.Some? {
      var col := last.value;
      assert row < |tokens| - (k - 1) && col < |tokens| - (k - 1);
      CountMatrixSnoc(ps, (row, col));
      mat' := AddOne(mat, row, col);
      ps' := ps + [(row, col)];
    }
    last' := Some(row);
  }

  /**
   * `from_tokens`: slide the window, register each new window content under
   * the next id, and count each transition at (id of current, id of previous).
   */
  method FromTokens(tokens: seq<Token>, k: nat) returns (g: MarkovGenerator)
    requires 1 <= k && k - 1 <= |tokens|
    ensures g == Trained(tokens, k)
  {
    ghost var ws := Windows(tokens, k);
    var maxPossibleStates := |tokens| - (k - 1);
    var stateIndices := new StateIndex();
    var mat: map<(nat, nat), nat> := map[];
    var currentRows := 0;
    var i := 0;
    var lastStateIndex: Option<nat> := None;
    ghost var ps: seq<(nat, nat)> := [];
    assert ws[..0] == [];
    while i + k <= |tokens|
      invariant |ws| == maxPossibleStates
      invariant Progress(ws, i, stateIndices.states, ps, mat, currentRows, lastStateIndex)
    {
      mat, currentRows, lastStateIndex, ps := TrainWindow(tokens, k, i, stateIndices, mat, currentRows, lastStateIndex, ps);
      i := i + 1;
    }
    assert ws[..i] == ws;
    g := MarkovGenerator(mat, maxPossibleStates, stateIndices.states, k);
  }
}
