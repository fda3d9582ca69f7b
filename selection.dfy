/**
  The specification shared by the two greedy selectors: the candidates are
  examined from index 1 on, the running maximum starts at 0, and the
  candidates whose value equals the final maximum form the tie set, in input
  order.  `value` stands for the candidates' `getValue`.
 */
module Selection {

  /** `randomInt(lo, hi)` stands for `randomIntInRange(lo, hi)`: a number
      between its two bounds, both included. */
  ghost predicate IsIntInRange(randomInt: (int, int) -> int) {
    forall lo: int, hi: int {:trigger randomInt(lo, hi)} :: lo <= hi ==> lo <= randomInt(lo, hi) <= hi
  }

  /** `random`: the candidate at the index `randomInt` draws; always one of
      the input. */
  function Random<S>(states: seq<S>, randomInt: (int, int) -> int): (r: S)
    requires |states| > 0 && IsIntInRange(randomInt)
    ensures r in states
  {
    states[randomInt(0, |states| - 1)]
  }

  /** How `greedy` picks from its tie set: the only member, or a random one. */
  function PickTied<S>(ties: seq<S>, randomInt: (int, int) -> int): (r: S)
    requires |ties| > 0 && IsIntInRange(randomInt)
    ensures r in ties
    ensures |ties| == 1 ==> r == ties[0]
  {
    if |ties| == 1 then ties[0] else Random(ties, randomInt)
  }

  /** Every candidate can be the one `random` returns: the draw that lands
      on its index selects it. */
  lemma RandomReachesAll<S>(states: seq<S>, k: nat)
    requires k < |states|
    ensures var draw := (lo: int, hi: int) => if lo <= k <= hi then k else lo;
      IsIntInRange(draw) && Random(states, draw) == states[k]
  {
    var draw := (lo: int, hi: int) => if lo <= k <= hi then k else lo;
    assert draw(0, |states| - 1) == k;
  }

  /** With two or more ties, every tied candidate can be picked: the choice
      is the draw's, not the first match. */
  lemma PickTiedReachesAll<S>(ties: seq<S>, k: nat)
    requires 2 <= |ties| && k < |ties|
    ensures var draw := (lo: int, hi: int) => if lo <= k <= hi then k else lo;
      IsIntInRange(draw) && PickTied(ties, draw) == ties[k]
  {
    RandomReachesAll(ties, k);
  }

  function Max(a: real, b: real): real {
    if a < b then b else a
  }

  /** The running maximum after the candidates at indices 1 .. n-1. */
  function PeakUpTo<S>(states: seq<S>, value: S -> real, n: nat): (m: real)
    requires n <= |states|
    ensures m >= 0.0
    ensures forall i :: 1 <= i < n ==> value(states[i]) <= m
    ensures m == 0.0 || exists i :: 1 <= i < n && value(states[i]) == m
  {
    if n <= 1 then 0.0 else Max(PeakUpTo(states, value, n - 1), value(states[n - 1]))
  }

  /** The candidates among indices 1 .. n-1 whose value is `m`, in order. */
  function TiesUpTo<S>(states: seq<S>, value: S -> real, m: real, n: nat): (t: seq<S>)
    requires n <= |states|
  {
    if n <= 1 then []
    else TiesUpTo(states, value, m, n - 1) + (if value(states[n - 1]) == m then [states[n - 1]] else [])
  }

  /** max(0, the largest value at an index of at least 1). */
  function Peak<S>(states: seq<S>, value: S -> real): real {
    PeakUpTo(states, value, |states|)
  }

  /** The tie set `greedy` ends its loop with. */
  function Ties<S>(states: seq<S>, value: S -> real): seq<S> {
    TiesUpTo(states, value, Peak(states, value), |states|)
  }

  /** Some candidate other than the first has a non-negative value. */
  ghost predicate GreedyDefined<S>(states: seq<S>, value: S -> real) {
    exists i :: 1 <= i < |states| && value(states[i]) >= 0.0
  }

  /** A candidate is tied exactly when it sits at an index of at least 1 and
      its value is `m`. */
  lemma {:induction false} TiesUpToMembers<S>(states: seq<S>, value: S -> real, m: real, n: nat, x: S)
    requires n <= |states|
    ensures x in TiesUpTo(states, value, m, n) <==>
      exists i :: 1 <= i < n && states[i] == x && value(x) == m
  {
    if n > 1 {
      TiesUpToMembers(states, value, m, n - 1, x);
      if x in TiesUpTo(states, value, m, n) && x !in TiesUpTo(states, value, m, n - 1) {
        assert states[n - 1] == x && value(x) == m;
      }
    }
  }

  /** Nothing ties at a level above the running maximum. */
  lemma {:induction false} TiesAbovePeak<S>(states: seq<S>, value: S -> real, m: real, n: nat)
    requires n <= |states|
    requires m > PeakUpTo(states, value, n)
    ensures TiesUpTo(states, value, m, n) == []
  {
    if n > 1 {
      TiesAbovePeak(states, value, m, n - 1);
    }
  }

  /** The tie set holds exactly the candidates at index 1 or later whose value
      is the peak; the peak is at least 0 and at least every such value. */
  lemma TiesMembers<S>(states: seq<S>, value: S -> real, x: S)
    ensures x in Ties(states, value) <==>
      exists i :: 1 <= i < |states| && states[i] == x && value(x) == Peak(states, value)
    ensures Peak(states, value) >= 0.0
    ensures forall i :: 1 <= i < |states| ==> value(states[i]) <= Peak(states, value)
  {
    TiesUpToMembers(states, value, Peak(states, value), |states|, x);
  }

  /** The tie set is empty exactly when no candidate from index 1 on has a
      non-negative value; in particular it is empty for fewer than two
      candidates. */
  lemma TiesNonEmpty<S>(states: seq<S>, value: S -> real)
    ensures |Ties(states, value)| > 0 <==> GreedyDefined(states, value)
    ensures GreedyDefined(states, value) ==> |states| >= 2
  {
    var m := Peak(states, value);
    if GreedyDefined(states, value) {
      var i :| 1 <= i < |states| && value(states[i]) >= 0.0;
      if m == 0.0 {
        TiesMembers(states, value, states[i]);
      } else {
        var j :| 1 <= j < |states| && value(states[j]) == m;
        TiesMembers(states, value, states[j]);
      }
    } else if |Ties(states, value)| > 0 {
      TiesMembers(states, value, Ties(states, value)[0]);
    }
  }

  /** The first candidate is never examined: replacing it changes neither
      the peak nor the tie set. */
  lemma {:induction false} FirstIgnoredUpTo<S>(states: seq<S>, other: seq<S>, value: S -> real, m: real, n: nat)
    requires |states| == |other| && n <= |states|
    requires forall i :: 1 <= i < |states| ==> states[i] == other[i]
    ensures PeakUpTo(states, value, n) == PeakUpTo(other, value, n)
    ensures TiesUpTo(states, value, m, n) == TiesUpTo(other, value, m, n)
  {
    if n > 1 {
      FirstIgnoredUpTo(states, other, value, m, n - 1);
    }
  }

  lemma FirstIgnored<S>(states: seq<S>, value: S -> real, first: S)
    requires |states| >= 1
    ensures Peak([first] + states[1..], value) == Peak(states, value)
    ensures Ties([first] + states[1..], value) == Ties(states, value)
  {
    var other := [first] + states[1..];
    FirstIgnoredUpTo(states, other, value, Peak(states, value), |states|);
  }
}
