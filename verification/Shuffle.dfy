/**
  The seeded shuffle: from the last place down, each place is swapped with one
  drawn among itself and the places before it. The draws are the outputs of the
  generator reduced to the number of places; any draws give a permutation, every
  permutation is reached, and for different elements only by one list of draws.
 */
module Shuffling {
  import opened SplitMix

  function Swapped<T>(s: seq<T>, i: nat, j: nat): (r: seq<T>)
    requires i < |s| && j < |s|
    ensures |r| == |s|
  {
    s[i := s[j]][j := s[i]]
  }

  /** Which place is drawn for place `index`. */
  function Drawn(output: nat, index: nat): (j: nat)
    ensures j <= index
  {
    output % (index + 1)
  }

  function Output(state: bv64): nat {
    Mixed(state) as nat
  }

  /** The shuffle of places 0 to `index`, and the state of the generator afterwards. */
  function Shuffled<T>(s: seq<T>, index: int, state: bv64): (r: (seq<T>, bv64))
    requires index < |s|
    ensures |r.0| == |s|
    decreases index
  {
    if index <= 0 then (s, state)
    else Shuffled(Swapped(s, index, Drawn(Output(state + GAMMA), index)), index - 1, state + GAMMA)
  }

  lemma SwapIsPermutation<T>(s: seq<T>, i: nat, j: nat)
    requires i < |s| && j < |s|
    ensures multiset(Swapped(s, i, j)) == multiset(s)
  {
  }

  lemma {:induction false} ShuffleIsPermutation<T>(s: seq<T>, index: int, state: bv64)
    requires index < |s|
    ensures multiset(Shuffled(s, index, state).0) == multiset(s)
    decreases index
  {
    hide Drawn, Swapped, Output;
    if index > 0 {
      SwapIsPermutation(s, index, Drawn(Output(state + GAMMA), index));
      ShuffleIsPermutation(Swapped(s, index, Drawn(Output(state + GAMMA), index)), index - 1, state + GAMMA);
    }
  }

  // ----- Shuffling by given draws -----

  /** A draw for each place from `index` down to 1, each at most the place. */
  predicate Draws(draws: seq<nat>, index: int) {
    |draws| == (if index > 0 then index else 0) && forall k :: 0 <= k < |draws| ==> draws[k] <= index - k
  }

  function Dealt<T>(s: seq<T>, index: int, draws: seq<nat>): (r: seq<T>)
    requires index < |s| && Draws(draws, index)
    ensures |r| == |s|
    decreases index
  {
    if index <= 0 then s else Dealt(Swapped(s, index, draws[0]), index - 1, draws[1..])
  }

  /** The draws of the generator: its outputs, reduced to the number of places. */
  function DrawsFrom(state: bv64, index: int): (draws: seq<nat>)
    ensures Draws(draws, index)
    decreases index
  {
    if index <= 0 then []
    else
      var rest := DrawsFrom(state + GAMMA, index - 1);
      [Drawn(Output(state + GAMMA), index)] + rest
  }

  lemma {:induction false} DrawsAreOutputs(state: bv64, index: int, k: nat)
    requires k < index
    ensures DrawsFrom(state, index)[k] == Mixed(StateAfter(state, k + 1)) as nat % (index - k + 1)
    decreases k
  {
    hide Mixed;
    StateShifts(state, k);
    if k > 0 {
      DrawsAreOutputs(state + GAMMA, index - 1, k - 1);
    }
  }

  lemma {:induction false} StateShifts(state: bv64, n: nat)
    ensures StateAfter(state, n + 1) == StateAfter(state + GAMMA, n)
  {
    if n > 0 {
      StateShifts(state, n - 1);
    }
  }

  /** The generator's shuffle deals by its draws, one for each place but the first. */
  lemma {:induction false} ShuffledIsDealt<T>(s: seq<T>, index: int, state: bv64)
    requires index < |s|
    ensures Shuffled(s, index, state).0 == Dealt(s, index, DrawsFrom(state, index))
    ensures Shuffled(s, index, state).1 == StateAfter(state, if index > 0 then index else 0)
    decreases index
  {
    hide Drawn, Swapped, Output;
    if index > 0 {
      var draws := DrawsFrom(state, index);
      assert draws[1..] == DrawsFrom(state + GAMMA, index - 1);
      ShuffledIsDealt(Swapped(s, index, draws[0]), index - 1, state + GAMMA);
      StateShifts(state, index - 1);
    }
  }

  // ----- What a draw does -----

  lemma {:induction false} DealtKeepsAbove<T>(s: seq<T>, index: int, draws: seq<nat>, j: nat)
    requires index < j < |s| && Draws(draws, index)
    ensures Dealt(s, index, draws)[j] == s[j]
    decreases index
  {
    if index > 0 {
      DealtKeepsAbove(Swapped(s, index, draws[0]), index - 1, draws[1..], j);
    }
  }

  /** The element at a place is the one that was drawn for it. */
  lemma DrawnIsPlaced<T>(s: seq<T>, index: int, draws: seq<nat>)
    requires 0 < index < |s| && Draws(draws, index)
    ensures Dealt(s, index, draws)[index] == s[draws[0]]
  {
    DealtKeepsAbove(Swapped(s, index, draws[0]), index - 1, draws[1..], index);
  }

  /** In particular the last place takes the element that the next output points at. */
  lemma OutputIsPlaced<T>(s: seq<T>, index: int, state: bv64, j: nat)
    requires 0 < index < |s| && j == Mixed(state + GAMMA) as nat % (index + 1)
    ensures j <= index && Shuffled(s, index, state).0[index] == s[j]
  {
    hide Mixed, Shuffled, Dealt;
    var draws := DrawsFrom(state, index);
    ShuffledIsDealt(s, index, state);
    DrawnIsPlaced(s, index, draws);
    DrawsAreOutputs(state, index, 0);
    assert StateAfter(state, 1) == StateAfter(state, 0) + GAMMA;
  }

  // ----- Every permutation, once -----

  /** The places up to `index` hold the same elements, the ones above are the same. */
  ghost predicate Rearranged<T>(s: seq<T>, t: seq<T>, index: int) {
    && |s| == |t| && -1 <= index < |s|
    && multiset(s[..index + 1]) == multiset(t[..index + 1])
    && forall j :: index < j < |s| ==> s[j] == t[j]
  }

  lemma InitBag<T>(s: seq<T>, n: nat)
    requires n < |s|
    ensures multiset(s[..n]) == multiset(s[..n + 1]) - multiset{s[n]}
  {
    assert s[..n + 1] == s[..n] + [s[n]];
  }

  lemma SwapInFront<T>(s: seq<T>, index: nat, j: nat)
    requires j <= index < |s|
    ensures multiset(Swapped(s, index, j)[..index + 1]) == multiset(s[..index + 1])
  {
    SwapIsPermutation(s[..index + 1], index, j);
    assert Swapped(s, index, j)[..index + 1] == Swapped(s[..index + 1], index, j);
  }

  lemma SwapPlaces<T>(s: seq<T>, index: nat, j: nat)
    requires j <= index < |s|
    ensures Swapped(s, index, j)[index] == s[j] && forall i :: index < i < |s| ==> Swapped(s, index, j)[i] == s[i]
  {
  }

  lemma SwapRearranges<T>(s: seq<T>, t: seq<T>, index: int, j: nat)
    requires Rearranged(s, t, index) && 0 <= j <= index && s[j] == t[index]
    ensures Rearranged(Swapped(s, index, j), t, index - 1)
  {
    hide Swapped;
    var u := Swapped(s, index, j);
    SwapPlaces(s, index, j);
    SwapInFront(s, index, j);
    InitBag(u, index);
    InitBag(t, index);
  }

  lemma DrawFor<T>(s: seq<T>, t: seq<T>, index: int) returns (j: nat)
    requires Rearranged(s, t, index) && index >= 0
    ensures j <= index && s[j] == t[index]
  {
    var a, b := s[..index + 1], t[..index + 1];
    assert b[index] in multiset(b);
    assert b[index] in a;
    j :| 0 <= j < |a| && a[j] == b[index];
  }

  lemma {:induction false} RearrangementIsDealt<T>(s: seq<T>, t: seq<T>, index: int) returns (draws: seq<nat>)
    requires Rearranged(s, t, index)
    ensures Draws(draws, index) && Dealt(s, index, draws) == t
    decreases index
  {
    if index <= 0 {
      draws := [];
      if index == 0 {
        OnlyOne(s, t);
      }
      assert s == t;
    } else {
      hide Rearranged, Swapped;
      var j := DrawFor(s, t, index);
      SwapRearranges(s, t, index, j);
      var rest := RearrangementIsDealt(Swapped(s, index, j), t, index - 1);
      draws := [j] + rest;
      assert draws[1..] == rest;
    }
  }

  lemma OnlyOne<T>(s: seq<T>, t: seq<T>)
    requires Rearranged(s, t, 0)
    ensures s[0] == t[0]
  {
    assert s[..1] == [s[0]] && t[..1] == [t[0]];
    assert s[0] in multiset(s[..1]);
    assert s[0] in multiset{t[0]};
  }

  /** Every permutation is reached by some draws. */
  lemma EveryPermutationIsDealt<T>(s: seq<T>, t: seq<T>) returns (draws: seq<nat>)
    requires multiset(s) == multiset(t)
    ensures Draws(draws, |s| - 1) && Dealt(s, |s| - 1, draws) == t
  {
    assert |s| == |multiset(s)| == |multiset(t)| == |t|;
    assert s[..|s|] == s && t[..|s|] == t;
    draws := RearrangementIsDealt(s, t, |s| - 1);
  }

  /** Different elements are brought into one order by one list of draws only. */
  lemma {:induction false} DrawsAreDetermined<T>(s: seq<T>, index: int, draws: seq<nat>, others: seq<nat>)
    requires index < |s| && Draws(draws, index) && Draws(others, index)
    requires (forall i, j :: 0 <= i < j < |s| ==> s[i] != s[j]) && Dealt(s, index, draws) == Dealt(s, index, others)
    ensures draws == others
    decreases index
  {
    if index > 0 {
      DrawnIsPlaced(s, index, draws);
      DrawnIsPlaced(s, index, others);
      assert draws[0] == others[0];
      DrawsAreDetermined(Swapped(s, index, draws[0]), index - 1, draws[1..], others[1..]);
      assert draws == [draws[0]] + draws[1..] && others == [others[0]] + others[1..];
    }
  }
}
