/**
  The reinforcement-learning agent: the actions it may take, a saved policy,
  and the epsilon-greedy, greedy and random selectors over candidate states.
  The random draws are parameters: `draw` is the float `epsilonGreedy` draws
  from [0, 1), and `randomInt` stands for `randomIntInRange`.
 */
module AgentCore {
  import opened Selection
  import Actions
  import AgentState

  /** `P` is the type of the saved policy, which is not part of this model. */
  class Agent<P> {
    var availableActions: seq<Actions.Action>
    var policy: P

    constructor (availableActions: seq<Actions.Action>, policy: P)
      ensures this.availableActions == availableActions && this.policy == policy
    {
      this.availableActions := availableActions;
      this.policy := policy;
    }

    /** The decision step, empty in this version: it changes nothing. */
    method Think(s: AgentState.State)
      ensures availableActions == old(availableActions) && policy == old(policy)
    {
    }

    /** Scans the candidates from index 1, keeping a running maximum that
        starts at 0 and the candidates that reach it; then picks one of
        those.  The tie set is empty unless some candidate after the first
        has a non-negative value, and `random` on an empty vector is
        undefined, hence the precondition. */
    static method Greedy<S>(states: seq<S>, value: S -> real, randomInt: (int, int) -> int)
      returns (r: S)
      requires GreedyDefined(states, value) && IsIntInRange(randomInt)
      ensures |Ties(states, value)| > 0
      ensures r == PickTied(Ties(states, value), randomInt)
      ensures exists i :: 1 <= i < |states| && states[i] == r
      ensures value(r) == Peak(states, value)
      ensures forall i :: 1 <= i < |states| ==> value(states[i]) <= value(r)
    {
      TiesNonEmpty(states, value);
      var maxValue: real := 0.0;
      var maxStates: seq<S> := [];
      var i := 1;
      while i < |states|
        invariant 1 <= i <= |states|
        invariant maxValue == PeakUpTo(states, value, i)
        invariant maxStates == TiesUpTo(states, value, maxValue, i)
      {
        var tmpValue := value(states[i]);
        if tmpValue > maxValue {
          TiesAbovePeak(states, value, tmpValue, i);
          maxValue := tmpValue;
          maxStates := [states[i]];
        } else if tmpValue == maxValue {
          maxStates := maxStates + [states[i]];
        }
        i := i + 1;
      }
      if |maxStates| == 1 {
        r := maxStates[0];
      } else {
        r := Random(maxStates, randomInt);
      }
      TiesMembers(states, value, r);
    }

    /** Exploits (greedy) when epsilon is below the draw, explores (random)
        otherwise. */
    static method EpsilonGreedy<S>(states: seq<S>, epsilon: real, draw: real,
                                   value: S -> real, randomInt: (int, int) -> int)
      returns (r: S)
      requires 0.0 <= draw < 1.0 && IsIntInRange(randomInt)
      requires epsilon < draw ==> GreedyDefined(states, value)
      requires epsilon >= draw ==> |states| > 0
      ensures r in states
      ensures epsilon < draw ==> |Ties(states, value)| > 0
      ensures epsilon < draw ==> r == PickTied(Ties(states, value), randomInt)
      ensures epsilon >= draw ==> r == Random(states, randomInt)
      ensures epsilon >= 1.0 ==> r == Random(states, randomInt)
      ensures epsilon < 0.0 ==> value(r) == Peak(states, value)
    {
      if epsilon < draw {
        r := Greedy(states, value, randomInt);
      } else {
        r := Random(states, randomInt);
      }
    }
  }
}
