/**
 * Prediction over a trained model. The random draws of the program are
 * caller-supplied: a row pick and a state pick in [0, n) for the uniform
 * choices, and a ticket in [0, row weight) for the weighted one.
 */
module Prediction {
  import opened Options
  import opened States
  import opened Training

  /** The stored entries of one matrix row as (column, count), in increasing column order. */
  function RowEntries(mat: map<(nat, nat), nat>, row: nat, n: nat): (es: seq<(nat, nat)>)
    ensures forall j :: 0 <= j < |es| ==> es[j].0 < n && (row, es[j].0) in mat && es[j].1 == mat[(row, es[j].0)]
    ensures forall c :: 0 <= c < n && (row, c) in mat ==> exists j :: 0 <= j < |es| && es[j].0 == c
    ensures forall i, j :: 0 <= i < j < |es| ==> es[i].0 < es[j].0
  {
    if n == 0 then []
    else
      var es := RowEntries(mat, row, n - 1);
      if (row, n - 1) in mat then
        var es' := es + [(n - 1, mat[(row, n - 1)])];
        assert forall j :: 0 <= j < |es| ==> es'[j] == es[j];
        assert es'[|es|].0 == n - 1;
        es'
      else es
  }

  /** The sum of the counts of some row entries. */
  function Weight(es: seq<(nat, nat)>): nat
  {
    if es == [] then 0 else es[0].1 + Weight(es[1..])
  }

  /**
   * Weighted sampling: the entry whose cumulative-count interval holds the
   * ticket. A uniform ticket in [0, Weight(es)) selects entry i with
   * probability es[i].1 / Weight(es).
   */
  function PickWeighted(es: seq<(nat, nat)>, ticket: nat): (i: nat)
    requires ticket < Weight(es)
    ensures i < |es| && Weight(es[..i]) <= ticket < Weight(es[..i + 1])
  {
    if ticket < es[0].1 then
      assert es[..1][1..] == [];
      0
    else
      var i := PickWeighted(es[1..], ticket - es[0].1);
      assert es[..i + 1][1..] == es[1..][..i];
      assert es[..i + 2][1..] == es[1..][..i + 1];
      i + 1
  }

  lemma {:induction false} WeightSnoc(es: seq<(nat, nat)>, e: (nat, nat))
    ensures Weight(es + [e]) == Weight(es) + e.1
  {
    if es != [] {
      assert (es + [e])[1..] == es[1..] + [e];
      WeightSnoc(es[1..], e);
    }
  }

  lemma WeightPrefixMonotone(es: seq<(nat, nat)>, i: nat, j: nat)
    requires i <= j <= |es|
    ensures Weight(es[..i]) <= Weight(es[..j])
    decreases j - i
  {
    if i < j {
      assert es[..i + 1] == es[..i] + [es[i]];
      WeightSnoc(es[..i], es[i]);
      WeightPrefixMonotone(es, i + 1, j);
    }
  }

  /**
   * Exactly the tickets in entry i's interval select entry i, and that
   * interval holds es[i].1 tickets: selection is proportional to count.
   */
  lemma PickWeightedExactly(es: seq<(nat, nat)>, i: nat, ticket: nat)
    requires i < |es|
    ensures Weight(es[..i + 1]) == Weight(es[..i]) + es[i].1
    ensures Weight(es[..i]) <= ticket < Weight(es[..i + 1]) ==>
      ticket < Weight(es) && PickWeighted(es, ticket) == i
  {
    assert es[..i + 1] == es[..i] + [es[i]];
    WeightSnoc(es[..i], es[i]);
    if Weight(es[..i]) <= ticket < Weight(es[..i + 1]) {
      WeightPrefixMonotone(es, i + 1, |es|);
      assert es[..|es|] == es;
      var j := PickWeighted(es, ticket);
      if j < i {
        WeightPrefixMonotone(es, j + 1, i);
      } else if i < j {
        WeightPrefixMonotone(es, i + 1, j);
      }
    }
  }

  /** `random_state`: the state under a uniformly drawn id. */
  function RandomState(g: MarkovGenerator, pick: nat): (s: State)
    requires pick < |g.states|
    ensures s in g.states
  {
    g.states[pick]
  }

  /** The row `predict` reads: the id of `current`, or a random row when it is not registered. */
  function ResolveRow(g: MarkovGenerator, current: State, rowPick: nat): (row: nat)
    requires rowPick < |g.states|
    ensures row < |g.states|
    ensures current in g.states ==> g.states[row] == current && forall q :: 0 <= q < row ==> g.states[q] != current
    ensures current !in g.states ==> row == rowPick
  {
    match Position(g.states, current)
    case Some(r) => r
    case None => rowPick
  }

  /** The draw that `predict` makes from the row it resolved to. */
  predicate ValidTicket(g: MarkovGenerator, current: State, rowPick: nat, ticket: nat)
    requires rowPick < |g.states|
  {
    var es := RowEntries(g.mat, ResolveRow(g, current, rowPick), g.dim);
    es != [] ==> ticket < Weight(es)
  }

  /**
   * `predict`: a registered state; a dead-end row falls back to a random
   * state, otherwise the state at a column the row holds a count for.
   */
  function Predict(g: MarkovGenerator, current: State, rowPick: nat, statePick: nat, ticket: nat): (r: State)
    requires WellFormed(g)
    requires rowPick < |g.states| && statePick < |g.states|
    requires ValidTicket(g, current, rowPick, ticket)
    ensures r in g.states
    ensures RowEntries(g.mat, ResolveRow(g, current, rowPick), g.dim) == [] ==> r == g.states[statePick]
    ensures RowEntries(g.mat, ResolveRow(g, current, rowPick), g.dim) != [] ==>
      exists c :: 0 <= c < |g.states| && (ResolveRow(g, current, rowPick), c) in g.mat && r == g.states[c]
  {
    var row := ResolveRow(g, current, rowPick);
    var es := RowEntries(g.mat, row, g.dim);
    if es == [] then RandomState(g, statePick)
    else
      var col := es[PickWeighted(es, ticket)].0;
      assert (row, col) in g.mat;
      g.states[col]
  }

  /** A row is a dead end exactly when the matrix stores no count in it. */
  lemma DeadEndRow(g: MarkovGenerator, row: nat)
    requires WellFormed(g)
    ensures RowEntries(g.mat, row, g.dim) == [] <==> forall c :: (row, c) !in g.mat
  {
    var es := RowEntries(g.mat, row, g.dim);
    if es != [] {
      assert (row, es[0].0) in g.mat;
    }
  }

  /** The position of the window pair a recorded transition came from. */
  lemma {:induction false} TransitionIndex(ws: seq<State>, d: seq<State>, p: (nat, nat)) returns (i: nat)
    requires AllIn(ws, d) && p in Transitions(ws, d)
    ensures 1 <= i < |ws| && ws[i] in d && ws[i - 1] in d && p == (Id(d, ws[i]), Id(d, ws[i - 1]))
    decreases |ws|
  {
    var init := ws[..|ws| - 1];
    assert AllIn(init, d) by {
      forall w | w in init ensures w in d {
        assert w in ws;
      }
    }
    if p in Transitions(init, d) {
      i := TransitionIndex(init, d, p);
      assert init[i] == ws[i] && init[i - 1] == ws[i - 1];
    } else {
      i := |ws| - 1;
    }
  }

  /** Every stored entry (r, c) of a trained matrix records window i with id r right after window i - 1 with id c. */
  lemma StoredEntryOrigin(tokens: seq<Token>, k: nat, p: (nat, nat))
    requires 1 <= k <= |tokens| + 1
    requires p in Trained(tokens, k).mat
    ensures var ws, d := Windows(tokens, k), Trained(tokens, k).states;
      AllIn(ws, d) && p.0 < |d| && p.1 < |d| &&
      exists i :: 1 <= i < |ws| && d[p.0] == ws[i] && d[p.1] == ws[i - 1]
  {
    var i := StoredEntryIndex(tokens, k, p);
  }

  /** The position of the window pair a stored entry of a trained matrix came from. */
  lemma StoredEntryIndex(tokens: seq<Token>, k: nat, p: (nat, nat)) returns (i: nat)
    requires 1 <= k <= |tokens| + 1
    requires p in Trained(tokens, k).mat
    ensures var ws, d := Windows(tokens, k), Trained(tokens, k).states;
      AllIn(ws, d) && p.0 < |d| && p.1 < |d| && 1 <= i < |ws| && d[p.0] == ws[i] && d[p.1] == ws[i - 1]
  {
    var ws, d := Windows(tokens, k), Trained(tokens, k).states;
    TrainedCounts(tokens, k);
    var ps := Transitions(ws, d);
    OccurrencesPositive(ps, p);
    i := TransitionIndex(ws, d, p);
  }

  /**
   * With the matrix orientation training uses, prediction from a registered
   * state with a non-empty row yields a state that came immediately BEFORE
   * `current` somewhere in the training windows.
   */
  lemma PredictYieldsPredecessor(tokens: seq<Token>, k: nat, current: State,
                                 rowPick: nat, statePick: nat, ticket: nat)
    requires 1 <= k <= |tokens|
    requires var g := Trained(tokens, k);
      && WellFormed(g) && rowPick < |g.states| && statePick < |g.states|
      && ValidTicket(g, current, rowPick, ticket)
      && current in g.states
      && RowEntries(g.mat, ResolveRow(g, current, rowPick), g.dim) != []
    ensures var ws := Windows(tokens, k);
      exists i :: 1 <= i < |ws| && ws[i] == current &&
        ws[i - 1] == Predict(Trained(tokens, k), current, rowPick, statePick, ticket)
  {
    var g, ws := Trained(tokens, k), Windows(tokens, k);
    var row, c := PredictedEntry(g, current, rowPick, statePick, ticket);
    var i := StoredEntryIndex(tokens, k, (row, c));
  }

  /** The stored entry a prediction from a registered state with a non-empty row came from. */
  lemma PredictedEntry(g: MarkovGenerator, current: State, rowPick: nat, statePick: nat, ticket: nat)
    returns (row: nat, c: nat)
    requires WellFormed(g) && rowPick < |g.states| && statePick < |g.states|
    requires ValidTicket(g, current, rowPick, ticket)
    requires current in g.states
    requires RowEntries(g.mat, ResolveRow(g, current, rowPick), g.dim) != []
    ensures row < |g.states| && c < |g.states| && (row, c) in g.mat
    ensures g.states[row] == current && Predict(g, current, rowPick, statePick, ticket) == g.states[c]
  {
    row := ResolveRow(g, current, rowPick);
    var r := Predict(g, current, rowPick, statePick, ticket);
    c :| 0 <= c < |g.states| && (row, c) in g.mat && r == g.states[c];
  }
}
