/**
  The earlier state class at the root of the sources: a ball snapshot whose
  position and velocity are rounded on construction, stub value and reward
  queries, and its own copy of the epsilon-greedy selectors, whose greedy
  keeps the running maximum in an `int`.
 */
module RootState {
  import opened Numeric
  import opened Selection

  /** The ball record: position, velocity and acceleration. */
  datatype Ball = Ball(position: Vec2, velocity: Vec2, acceleration: Vec2)

  /** Rounds `number` to the nearest multiple of 1/`scale`, halves away
      from zero: the shape shared by `roundFloat` and its intended form. */
  function RoundToGrid(number: real, scale: real): real
    requires scale != 0.0
  {
    RoundHalfAway(number * scale) as real / scale
  }

  lemma GridUnfold(number: real, scale: real)
    requires scale != 0.0
    ensures RoundToGrid(number, scale) == RoundHalfAway(number * scale) as real / scale
  {
  }

  /** Dividing by `scale` and multiplying back is the identity. */
  lemma DivMul(x: real, scale: real)
    requires scale != 0.0
    ensures (x / scale) * scale == x
  {
  }

  lemma IntegralInt(k: int)
    ensures IsIntegral(k as real)
  {
    assert (k as real).Floor == k;
  }

  /** The rounded value is a grid point (an integer once scaled) nearest to
      `number`, and rounding a grid point gives it back. */
  lemma RoundToGridNearest(number: real, scale: real)
    requires scale != 0.0
    ensures RoundToGrid(number, scale) * scale == RoundHalfAway(number * scale) as real
    ensures IsIntegral(RoundToGrid(number, scale) * scale)
    ensures Abs(RoundToGrid(number, scale) * scale - number * scale) <= 0.5
  {
    var k := RoundHalfAway(number * scale);
    GridUnfold(number, scale);
    DivMul(k as real, scale);
    IntegralInt(k);
  }

  lemma RoundToGridKeepsGridPoints(k: int, scale: real)
    requires scale != 0.0
    ensures RoundToGrid(k as real / scale, scale) == k as real / scale
  {
    var g := k as real / scale;
    DivMul(k as real, scale);
    assert g * scale == k as real;
    RoundIntegral(k);
    assert RoundHalfAway(g * scale) == k;
    GridUnfold(g, scale);
  }

  lemma RoundToGridIdempotent(number: real, scale: real)
    requires scale != 0.0
    ensures RoundToGrid(RoundToGrid(number, scale), scale) == RoundToGrid(number, scale)
  {
    var k := RoundHalfAway(number * scale);
    GridUnfold(number, scale);
    RoundToGridKeepsGridPoints(k, scale);
  }

  /** The factor `roundFloat` scales by. */
  function FloatScale(precision: int): real {
    (10 * precision) as real
  }

  /** `roundFloat` as written: scale by `10 * precision`, round half away
      from zero, scale back.  The result lies on the grid of step
      1/(10 * precision): scaled back it is the integer nearest to the
      scaled `number`, so at most half a step away. */
  function RoundFloat(precision: int, number: real): (r: real)
    requires precision != 0
    ensures r * FloatScale(precision) == RoundHalfAway(number * FloatScale(precision)) as real
    ensures Abs(r * FloatScale(precision) - number * FloatScale(precision)) <= 0.5
  {
    RoundToGridNearest(number, FloatScale(precision));
    RoundToGrid(number, FloatScale(precision))
  }

  /** Rounding twice is rounding once. */
  lemma RoundFloatIdempotent(precision: int, number: real)
    requires precision != 0
    ensures RoundFloat(precision, RoundFloat(precision, number)) == RoundFloat(precision, number)
  {
    RoundToGridIdempotent(number, FloatScale(precision));
  }

  /** With precision 2, the setting the constructor uses, values snap to
      multiples of 1/20, not of 1/100: 0.01 becomes 0, 0.03 becomes 0.05. */
  lemma PrecisionTwoIsTwentieths(number: real)
    ensures RoundFloat(2, number) * 20.0 == RoundHalfAway(number * 20.0) as real
    ensures Abs(RoundFloat(2, number) - number) <= 0.025
    ensures RoundFloat(2, 0.01) == 0.0 && RoundFloat(2, 0.03) == 0.05
  {
    assert FloatScale(2) == 20.0;
    var r := RoundFloat(2, number);
    assert r * 20.0 == RoundHalfAway(number * 20.0) as real;
    assert Abs(r * 20.0 - number * 20.0) <= 0.5;
    assert Abs(r - number) * 20.0 == Abs(r * 20.0 - number * 20.0);
    assert RoundHalfAway(0.01 * 20.0) == 0;
    GridUnfold(0.01, 20.0);
    assert RoundHalfAway(0.03 * 20.0) == 1;
    GridUnfold(0.03, 20.0);
  }

  /** The factor rounding to `precision` decimal places scales by. */
  function DecimalScale(precision: nat): (s: real)
    ensures s >= 1.0
  {
    Pow10(precision) as real
  }

  /** Rounding to `precision` decimal places, as the documentation of
      `roundFloat` describes it: scale by 10^precision. */
  function RoundToDecimals(precision: nat, number: real): real {
    RoundToGrid(number, DecimalScale(precision))
  }

  /** The intended rounding lands on the grid of step 10^-precision, at a
      point nearest to `number`, and keeps every number already on it. */
  lemma RoundToDecimalsNearestGridPoint(precision: nat, number: real, k: int)
    ensures RoundToDecimals(precision, number) * DecimalScale(precision)
            == RoundHalfAway(number * DecimalScale(precision)) as real
    ensures Abs(RoundToDecimals(precision, number) * DecimalScale(precision)
                - number * DecimalScale(precision)) <= 0.5
    ensures RoundToDecimals(precision, k as real / DecimalScale(precision)) == k as real / DecimalScale(precision)
  {
    var scale := DecimalScale(precision);
    var j := RoundHalfAway(number * scale);
    GridUnfold(number, scale);
    DivMul(j as real, scale);
    RoundToGridKeepsGridPoints(k, scale);
  }

  /** 0.01 already has two decimals: the intended rounding keeps it, while
      `roundFloat` with precision 2 sends it to 0. */
  lemma HundredthLostByRoundFloat()
    ensures RoundToDecimals(2, 0.01) == 0.01
    ensures RoundFloat(2, 0.01) == 0.0
  {
    assert DecimalScale(2) == 100.0;
    RoundToGridKeepsGridPoints(1, 100.0);
    assert 1 as real / 100.0 == 0.01;
    PrecisionTwoIsTwentieths(0.0);
  }

  /** `reduceVectorPrecision`: both coordinates through `roundFloat`, so
      each is a grid point that `roundFloat` keeps as it is. */
  function ReduceVectorPrecision(precision: int, v: Vec2): (r: Vec2)
    requires precision != 0
    ensures r.x == RoundFloat(precision, v.x) && r.y == RoundFloat(precision, v.y)
    ensures RoundFloat(precision, r.x) == r.x && RoundFloat(precision, r.y) == r.y
  {
    RoundFloatIdempotent(precision, v.x);
    RoundFloatIdempotent(precision, v.y);
    Vec2(RoundFloat(precision, v.x), RoundFloat(precision, v.y))
  }

  /** Reducing a reduced vector again changes nothing. */
  lemma ReduceVectorPrecisionIdempotent(precision: int, v: Vec2)
    requires precision != 0
    ensures ReduceVectorPrecision(precision, ReduceVectorPrecision(precision, v))
            == ReduceVectorPrecision(precision, v)
  {
    RoundToGridIdempotent(v.x, FloatScale(precision));
    RoundToGridIdempotent(v.y, FloatScale(precision));
  }

  /** The running maximum and tie set of the `int`-maximum greedy after the
      candidates at indices 1 .. n-1: a larger value replaces the tie set and
      is truncated into the maximum, an equal value joins the tie set. */
  function TruncScanUpTo<S>(states: seq<S>, value: S -> real, n: nat): (acc: (int, seq<S>))
    requires n <= |states|
    ensures acc.0 >= 0
  {
    if n <= 1 then (0, [])
    else
      var (m, ties) := TruncScanUpTo(states, value, n - 1);
      var v := value(states[n - 1]);
      if v > m as real then (Truncate(v), [states[n - 1]])
      else if v == m as real then (m, ties + [states[n - 1]])
      else (m, ties)
  }

  function TruncTies<S>(states: seq<S>, value: S -> real): seq<S> {
    TruncScanUpTo(states, value, |states|).1
  }

  /** The tie set of the `int`-maximum greedy holds only candidates from
      index 1 on, and is non-empty under the same condition as that of the
      `float` version. */
  lemma {:induction false} TruncTiesShape<S>(states: seq<S>, value: S -> real, n: nat)
    requires n <= |states|
    ensures forall x :: x in TruncScanUpTo(states, value, n).1 ==>
      exists i :: 1 <= i < n && states[i] == x && value(x) >= 0.0
    ensures |TruncScanUpTo(states, value, n).1| > 0 <==>
      exists i :: 1 <= i < n && value(states[i]) >= 0.0
  {
    if n > 1 {
      TruncTiesShape(states, value, n - 1);
      var (m, ties) := TruncScanUpTo(states, value, n - 1);
      var v := value(states[n - 1]);
      if v >= 0.0 && v < m as real {
        // the maximum only grows from 0 by taking a value, which fills the tie set
        TruncMaxHasTies(states, value, n - 1);
      }
    }
  }

  /** A positive maximum always comes with a non-empty tie set. */
  lemma {:induction false} TruncMaxHasTies<S>(states: seq<S>, value: S -> real, n: nat)
    requires n <= |states|
    ensures TruncScanUpTo(states, value, n).0 > 0 ==> |TruncScanUpTo(states, value, n).1| > 0
  {
    if n > 1 {
      TruncMaxHasTies(states, value, n - 1);
    }
  }

  /** When the values from index 1 on are integers (or negative), truncation
      loses nothing and the `int`-maximum greedy has the same tie set as the
      `float` one. */
  lemma {:induction false} TruncAgreesOnIntegers<S>(states: seq<S>, value: S -> real, n: nat)
    requires n <= |states|
    requires forall i :: 1 <= i < |states| ==> value(states[i]) < 0.0 || IsIntegral(value(states[i]))
    ensures TruncScanUpTo(states, value, n).0 as real == PeakUpTo(states, value, n)
    ensures TruncScanUpTo(states, value, n).1 == TiesUpTo(states, value, PeakUpTo(states, value, n), n)
  {
    if n > 1 {
      TruncAgreesOnIntegers(states, value, n - 1);
      var p := PeakUpTo(states, value, n - 1);
      var v := value(states[n - 1]);
      if v > p {
        TiesAbovePeak(states, value, v, n - 1);
        assert Truncate(v) as real == v;
      }
    }
  }

  /** With values [_, 0.9, 0.2] the `int` maximum stays 0, so 0.2 still
      counts as larger and replaces 0.9: the result is the candidate at
      index 2, where the `float` version picks index 1. */
  lemma TruncationPicksLaterSmallerValue()
    ensures
      var value := (i: int) => if i == 1 then 0.9 else if i == 2 then 0.2 else 0.0;
      TruncTies([0, 1, 2], value) == [2] && Ties([0, 1, 2], value) == [1]
  {
    var value := (i: int) => if i == 1 then 0.9 else if i == 2 then 0.2 else 0.0;
    var s := [0, 1, 2];
    assert TruncScanUpTo(s, value, 2) == (0, [1]);
    assert TruncScanUpTo(s, value, 3) == (0, [2]);
    assert PeakUpTo(s, value, 2) == 0.9;
    assert PeakUpTo(s, value, 3) == 0.9;
    assert TiesUpTo(s, value, 0.9, 2) == [1];
    assert TiesUpTo(s, value, 0.9, 3) == [1];
  }

  /** While every value from index 1 on stays below 1, each new maximum
      truncates to 0, so the stored maximum never leaves 0. */
  lemma {:induction false} TruncMaxStaysZero<S>(states: seq<S>, value: S -> real, n: nat)
    requires n <= |states|
    requires forall k :: 1 <= k < n ==> value(states[k]) < 1.0
    ensures TruncScanUpTo(states, value, n).0 == 0
  {
    if n > 1 {
      TruncMaxStaysZero(states, value, n - 1);
    }
  }

  /** Under the same condition every candidate with a positive value beats
      the stored maximum 0 and replaces the whole tie set, whatever was
      larger before it; so the last positive candidate wins. */
  lemma TruncPositiveBelowOneResets<S>(states: seq<S>, value: S -> real, n: nat, j: nat)
    requires n <= |states|
    requires forall k :: 1 <= k < n ==> value(states[k]) < 1.0
    requires 1 <= j < n && 0.0 < value(states[j])
    ensures TruncScanUpTo(states, value, j + 1) == (0, [states[j]])
  {
    TruncMaxStaysZero(states, value, j);
  }

  class State {
    var ball: Ball

    /** Stores the ball and rounds position and velocity with precision 2;
        the acceleration is kept as it is. */
    constructor (ball: Ball)
      ensures this.ball == Ball(ReduceVectorPrecision(2, ball.position),
                                ReduceVectorPrecision(2, ball.velocity),
                                ball.acceleration)
    {
      this.ball := ball;
      new;
      ReduceStatePrecision(2);
    }

    /** Rounds the ball's position and velocity; nothing else changes. */
    method ReduceStatePrecision(precision: int)
      requires precision != 0
      modifies this
      ensures ball == old(ball).(position := ReduceVectorPrecision(precision, old(ball).position),
                                 velocity := ReduceVectorPrecision(precision, old(ball).velocity))
    {
      ball := ball.(position := ReduceVectorPrecision(precision, ball.position));
      ball := ball.(velocity := ReduceVectorPrecision(precision, ball.velocity));
    }

    /** Stub: the expected reward is always 0. */
    function GetReward(): (r: real)
      ensures r == 0.0
    {
      0.0
    }

    /** Stub: the value is always 0. */
    function GetValue(): (r: real)
      ensures r == 0.0
    {
      0.0
    }

    /** The greedy selector of this copy: like the agent's, but the running
        maximum is an `int`, so a new maximum is truncated when stored. */
    static method Greedy<S>(states: seq<S>, value: S -> real, randomInt: (int, int) -> int)
      returns (r: S)
      requires GreedyDefined(states, value) && IsIntInRange(randomInt)
      ensures |TruncTies(states, value)| > 0
      ensures r == PickTied(TruncTies(states, value), randomInt)
      ensures exists i :: 1 <= i < |states| && states[i] == r && value(r) >= 0.0
    {
      TruncTiesShape(states, value, |states|);
      var maxValue: int := 0;
      var maxStates: seq<S> := [];
      var i := 1;
      while i < |states|
        invariant 1 <= i <= |states|
        invariant (maxValue, maxStates) == TruncScanUpTo(states, value, i)
      {
        var tmpValue := value(states[i]);
        if tmpValue > maxValue as real {
          maxValue := Truncate(tmpValue);
          maxStates := [states[i]];
        } else if tmpValue == maxValue as real {
          maxStates := maxStates + [states[i]];
        }
        i := i + 1;
      }
      if |maxStates| == 1 {
        r := maxStates[0];
      } else {
        r := Random(maxStates, randomInt);
      }
    }

    static method EpsilonGreedy<S>(states: seq<S>, epsilon: real, draw: real,
                                   value: S -> real, randomInt: (int, int) -> int)
      returns (r: S)
      requires 0.0 <= draw < 1.0 && IsIntInRange(randomInt)
      requires epsilon < draw ==> GreedyDefined(states, value)
      requires epsilon >= draw ==> |states| > 0
      ensures r in states
      ensures epsilon < draw ==> |TruncTies(states, value)| > 0
      ensures epsilon < draw ==> r == PickTied(TruncTies(states, value), randomInt)
      ensures epsilon >= draw ==> r == Random(states, randomInt)
      ensures epsilon >= 1.0 ==> r == Random(states, randomInt)
    {
      if epsilon < draw {
        r := Greedy(states, value, randomInt);
      } else {
        r := Random(states, randomInt);
      }
    }
  }

  /** The value the greedy of this copy reads: `getValue`. */
  function StubValue(s: State): real {
    s.GetValue()
  }

  /** With the stub `getValue`, every candidate from index 1 on ties at 0:
      two candidates give the second, more give one of all but the first. */
  lemma {:induction false} StubValueTiesAll(states: seq<State>, n: nat)
    requires n <= |states|
    ensures TruncScanUpTo(states, StubValue, n) == (0, if n <= 1 then [] else states[1..n])
  {
    if n > 1 {
      StubValueTiesAll(states, n - 1);
      var before := if n - 1 <= 1 then [] else states[1..n - 1];
      assert (StubValue)(states[n - 1]) == 0.0;
      assert TruncScanUpTo(states, StubValue, n) == (0, before + [states[n - 1]]);
      assert states[1..n] == before + [states[n - 1]];
    }
  }

  /** So the greedy of this copy returns the second candidate when there
      are two, and one of the candidates after the first when there are
      more. */
  lemma StubGreedyPick(states: seq<State>, randomInt: (int, int) -> int)
    requires |states| >= 2 && IsIntInRange(randomInt)
    ensures TruncTies(states, StubValue) == states[1..]
    ensures PickTied(TruncTies(states, StubValue), randomInt) in states[1..]
    ensures |states| == 2 ==> PickTied(TruncTies(states, StubValue), randomInt) == states[1]
  {
    StubValueTiesAll(states, |states|);
  }
}
