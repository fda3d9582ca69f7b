/**
  The agent's state: the ball's position and velocity, each coordinate
  quantised to a two-decimal text, and the value of each action in this
  state, keyed by the action object.
 */
module AgentState {
  import opened Numeric
  import Actions

  /** Readings above this bound are physics glitches and are replaced by 0. */
  const SANITY_BOUND: real := 10.0

  /** The size of the character buffer `round` formats into. */
  const BUFFER_SIZE: nat := 8

  function Clamp(f: real): (g: real)
    ensures f > SANITY_BOUND ==> g == 0.0
    ensures f <= SANITY_BOUND ==> g == f
  {
    if f > SANITY_BOUND then 0.0 else f
  }

  /** The magnitude of the clamped reading in hundredths, rounded to
      nearest with ties to even, as printf's `%.2f` rounds. */
  function Hundredths(f: real): (h: nat)
    ensures Abs(h as real - Abs(Clamp(f)) * 100.0) <= 0.5
    ensures Abs(h as real - Abs(Clamp(f)) * 100.0) == 0.5 ==> h % 2 == 0
  {
    var k := RoundHalfEven(Abs(Clamp(f)) * 100.0);
    assert k >= 0;
    k
  }

  /** The sign printf writes: '-' for a negative reading, even when it
      rounds to zero. */
  predicate PrintsMinus(f: real) {
    Clamp(f) < 0.0
  }

  /** The text without its leading minus sign, if it has one. */
  function Unsigned(s: string): (b: string)
    ensures b == s || (|s| > 0 && s[0] == '-' && b == s[1..])
  {
    if |s| > 0 && s[0] == '-' then s[1..] else s
  }

  /** Text in `%.2f` form: an optional '-', at least one digit, a '.', and
      two digits. */
  predicate IsFixedText(s: string) {
    var b := Unsigned(s);
    |b| >= 4 && b[|b| - 3] == '.' && IsDigits(b[..|b| - 3]) && IsDigits(b[|b| - 2..])
  }

  /** The number a `%.2f` text spells. */
  function FixedValue(s: string): real
    requires IsFixedText(s)
  {
    var b := Unsigned(s);
    var magnitude := DigitsValue(b[..|b| - 3]) as real + DigitsValue(b[|b| - 2..]) as real / 100.0;
    if |s| > 0 && s[0] == '-' then -magnitude else magnitude
  }

  /** The number `State::round` prints for `f`: the clamped reading to the
      nearest hundredth, carrying printf's sign. */
  function RoundValue(f: real): (r: real)
    ensures Abs(r - Clamp(f)) <= 0.005
  {
    var h := Hundredths(f);
    if PrintsMinus(f) then
      assert Abs(h as real + Clamp(f) * 100.0) <= 0.5;
      -(h as real) / 100.0
    else
      h as real / 100.0
  }

  /** `State::round`: clamp, then the `%.2f` text: an optional '-', the
      whole part, '.', and two digits. */
  function RoundText(f: real): (s: string)
    ensures |s| == (if PrintsMinus(f) then 1 else 0) + DigitCount(Hundredths(f) / 100) + 3
    ensures s[|s| - 3] == '.'
  {
    var h := Hundredths(f);
    DecimalLength(h / 100);
    (if PrintsMinus(f) then "-" else "") + Decimal(h / 100) + "." + TwoDigits(h % 100)
  }

  /** The text `State::round` prints is in `%.2f` form and spells the
      clamped reading rounded to hundredths, `RoundValue(f)`. */
  lemma RoundTextSpells(f: real)
    ensures IsFixedText(RoundText(f))
    ensures FixedValue(RoundText(f)) == RoundValue(f)
  {
    var h := Hundredths(f);
    var whole := Decimal(h / 100);
    var cents := TwoDigits(h % 100);
    var body := whole + "." + cents;
    var s := RoundText(f);
    assert s == (if PrintsMinus(f) then "-" else "") + body;
    assert body[..|body| - 3] == whole;
    assert body[|body| - 2..] == cents;
    assert DigitsValue(whole) as real + DigitsValue(cents) as real / 100.0 == h as real / 100.0;
    assert Unsigned(s) == body by {
      if PrintsMinus(f) {
        assert s[1..] == body;
      } else {
        assert s == body && s[0] == whole[0];
      }
    }
  }

  /** A reading above the bound prints as zero. */
  lemma RoundTextAboveBound(f: real)
    requires f > SANITY_BOUND
    ensures RoundText(f) == "0.00"
  {
    assert Clamp(f) == 0.0 && Abs(Clamp(f)) * 100.0 == 0.0;
    RoundIntegral(0);
    assert Hundredths(f) == 0;
    assert !PrintsMinus(f);
    assert Decimal(0) == "0" && TwoDigits(0) == "00";
  }

  /** The bound itself is kept. */
  lemma RoundTextAtBound()
    ensures RoundText(SANITY_BOUND) == "10.00"
  {
    assert Abs(Clamp(SANITY_BOUND)) * 100.0 == 1000.0;
    RoundIntegral(1000);
    assert Hundredths(SANITY_BOUND) == 1000;
    assert !PrintsMinus(SANITY_BOUND);
    assert Decimal(10) == "10" && TwoDigits(0) == "00";
  }

  /** Readings above 10 print as "0.00"; every other reading, negative ones
      included, is kept, and the number the text spells lies within half a
      hundredth of it. */
  lemma RoundClamps(f: real)
    ensures IsFixedText(RoundText(f))
    ensures f > SANITY_BOUND ==> RoundText(f) == "0.00"
    ensures f <= SANITY_BOUND ==> Abs(FixedValue(RoundText(f)) - f) <= 0.005
    ensures RoundText(SANITY_BOUND) == "10.00"
  {
    RoundTextSpells(f);
    if f > SANITY_BOUND {
      RoundTextAboveBound(f);
    } else {
      assert Abs(RoundValue(f) - f) <= 0.005;
    }
    RoundTextAtBound();
  }

  /** A clamped reading never exceeds 10.00 once rounded. */
  lemma HundredthsBelowBound(f: real)
    requires !PrintsMinus(f)
    ensures Hundredths(f) <= 1000
  {
    RoundHalfEvenAtMostEven(Abs(Clamp(f)) * 100.0, 1000);
  }

  /** Rounding the number a text spells gives the same text back, unless
      the text is a negative zero ("-0.00"), which exact arithmetic cannot
      carry. */
  lemma RoundTextIdempotent(f: real)
    requires !(PrintsMinus(f) && Hundredths(f) == 0)
    ensures RoundText(FixedValue(RoundText(f))) == RoundText(f)
  {
    var h := Hundredths(f);
    var v := RoundValue(f);
    RoundTextSpells(f);
    if !PrintsMinus(f) {
      HundredthsBelowBound(f);
      assert v == h as real / 100.0;
    } else {
      assert v == -(h as real) / 100.0;
    }
    assert Clamp(v) == v;
    assert Abs(v) * 100.0 == h as real;
    RoundIntegral(h);
    assert Hundredths(v) == h;
    assert PrintsMinus(v) == PrintsMinus(f);
  }

  /** A non-negative reading prints in at most 5 characters ("10.00"), so
      the text and its terminating NUL fit the buffer. */
  lemma NonNegativeFits(f: real)
    requires f >= 0.0
    ensures |RoundText(f)| <= 5 && |RoundText(f)| + 1 <= BUFFER_SIZE
  {
    HundredthsBelowBound(f);
    DigitCountBound(Hundredths(f) / 100, 2);
  }

  /** A negative reading fits the buffer exactly when it is above -999.995;
      from "-1000.00" on, `sprintf` writes past the end of `buf[8]`. */
  lemma NegativeFits(f: real)
    requires f < 0.0
    ensures |RoundText(f)| + 1 <= BUFFER_SIZE <==> f > -999.995
  {
    var h := Hundredths(f);
    DigitCountBound(h / 100, 3);
    assert DigitCount(h / 100) <= 3 <==> h <= 99999;
    RoundHalfEvenAtMostOdd(Abs(Clamp(f)) * 100.0, 99999);
  }

  /** The two coordinates of a vector as texts. */
  datatype Coords = Coords(x: string, y: string)

  class State {
    var ballPosition: Coords
    var ballVelocity: Coords
    var values: map<Actions.Action, real>

    /** Rounds both coordinates of the position and of the velocity by the
        same rule; no action has a value yet. */
    constructor (ballPosition: Vec2, ballVelocity: Vec2)
      ensures this.ballPosition == Coords(RoundText(ballPosition.x), RoundText(ballPosition.y))
      ensures this.ballVelocity == Coords(RoundText(ballVelocity.x), RoundText(ballVelocity.y))
      ensures values == map[]
    {
      this.ballPosition := Coords(RoundText(ballPosition.x), RoundText(ballPosition.y));
      this.ballVelocity := Coords(RoundText(ballVelocity.x), RoundText(ballVelocity.y));
      values := map[];
    }

    /** The value of `action`: a missing entry is created with value 0, as
        the map's subscript operator does. */
    method GetValue(action: Actions.Action) returns (v: real)
      modifies this`values
      ensures v == (if action in old(values) then old(values)[action] else 0.0)
      ensures values == old(values)[action := v]
    {
      if action !in values {
        values := values[action := 0.0];
      }
      v := values[action];
    }

    method SetValue(action: Actions.Action, value: real)
      modifies this`values
      ensures values == old(values)[action := value]
    {
      values := values[action := value];
    }
  }

  /** Reading an action's value after setting it gives the value set, and
      setting one action leaves what another reads unchanged. */
  method SetThenGet(s: State, a: Actions.Action, b: Actions.Action, v: real)
    returns (got: real, other: real)
    requires a != b
    modifies s
    ensures got == v
    ensures other == (if b in old(s.values) then old(s.values)[b] else 0.0)
  {
    s.SetValue(a, v);
    got := s.GetValue(a);
    other := s.GetValue(b);
  }
}
