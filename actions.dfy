/**
  Actions the agent can execute: the base `Action` class with its reward
  constants, identifier and no-op `run`, and the four flipper commands whose
  `run` switches one motor flag of the simulation.
 */
module Actions {
  import opened Flippers

  /** The neutral "no information yet" reward. */
  const DEFAULT_REWARD: real := 0.5
  /** The reward for the worst outcome (the ball is lost). */
  const MIN_REWARD: real := 0.0
  /** The best possible reward. */
  const MAX_REWARD: real := 1.0

  /** What the base class's `getUID` answers. */
  const BASE_UID: string := "NO_ACTION"

  lemma RewardScale()
    ensures MIN_REWARD < DEFAULT_REWARD < MAX_REWARD
    ensures DEFAULT_REWARD - MIN_REWARD == MAX_REWARD - DEFAULT_REWARD
  {
  }

  /** The dynamic class of an action object: the base class itself or one
      of the four flipper commands. */
  datatype Kind =
    | Base
    | EnableLeftFlipper
    | DisableLeftFlipper
    | EnableRightFlipper
    | DisableRightFlipper

  /** Whether a flipper command drives the left joint. */
  predicate ActsOnLeft(k: Kind) {
    k == EnableLeftFlipper || k == DisableLeftFlipper
  }

  /** Whether a flipper command switches its motor on. */
  predicate Engages(k: Kind) {
    k == EnableLeftFlipper || k == EnableRightFlipper
  }

  /** Whether the class of `k` declares its own `getUID`.  Only the two left
      flipper classes do; the right flipper classes inherit the base one. */
  predicate OverridesUid(k: Kind) {
    k == EnableLeftFlipper || k == DisableLeftFlipper
  }

  /** The identifier an action reports.  The strings of the two overriding
      classes are not part of this model, so `declared` supplies them. */
  function Uid(k: Kind, declared: Kind -> string): (u: string)
    ensures !OverridesUid(k) ==> u == BASE_UID
    ensures OverridesUid(k) ==> u == declared(k)
  {
    match k
    case EnableLeftFlipper => declared(k)
    case DisableLeftFlipper => declared(k)
    case _ => BASE_UID
  }

  /** What `run` does to the motor flags: the base action nothing; a
      flipper command sets the flag of its side to on or off and keeps the
      other side. */
  function Effect(k: Kind, m: MotorFlags): (r: MotorFlags)
    ensures k == Base ==> r == m
    ensures k != Base && ActsOnLeft(k) ==> r == MotorFlags(Engages(k), m.right)
    ensures k != Base && !ActsOnLeft(k) ==> r == MotorFlags(m.left, Engages(k))
  {
    match k
    case Base => m
    case EnableLeftFlipper => m.(left := true)
    case DisableLeftFlipper => m.(left := false)
    case EnableRightFlipper => m.(right := true)
    case DisableRightFlipper => m.(right := false)
  }

  /** Each command sets a flag to a constant, so running it twice is the
      same as running it once. */
  lemma EffectIdempotent(k: Kind, m: MotorFlags)
    ensures Effect(k, Effect(k, m)) == Effect(k, m)
  {
  }

  /** The last command on a side decides that side's flag, whatever came
      before it. */
  lemma LastCommandWins(first: Kind, second: Kind, m: MotorFlags)
    requires first != Base && second != Base
    requires ActsOnLeft(first) == ActsOnLeft(second)
    ensures Effect(second, Effect(first, m)) == Effect(second, m)
  {
  }

  /** Commands for different sides do not interfere. */
  lemma OppositeSidesCommute(a: Kind, b: Kind, m: MotorFlags)
    requires a != Base && b != Base && ActsOnLeft(a) != ActsOnLeft(b)
    ensures Effect(a, Effect(b, m)) == Effect(b, Effect(a, m))
  {
  }

  /** An action object.  Flipper commands hold a reference to the simulation
      they drive; the base action holds none. */
  class Action {
    const kind: Kind
    const sim: Simulation?

    /** The base class's constructor. */
    constructor Plain()
      ensures kind == Base && sim == null
    {
      kind, sim := Base, null;
    }

    /** The constructor of a flipper command class, storing its simulation. */
    constructor Flipper(k: Kind, s: Simulation)
      requires k != Base
      ensures kind == k && sim == s
    {
      kind, sim := k, s;
    }

    /** Executes the action against the simulation (virtual `run`). */
    method Run()
      requires (kind == Base) == (sim == null)
      modifies sim
      ensures sim != null ==> sim.Flags() == Effect(kind, old(sim.Flags()))
    {
      match kind
      case Base =>
      case EnableLeftFlipper => sim.EnableLeftFlipper();
      case DisableLeftFlipper => sim.DisableLeftFlipper();
      case EnableRightFlipper => sim.EnableRightFlipper();
      case DisableRightFlipper => sim.DisableRightFlipper();
    }
  }
}

/** The vector of all actions available in the simulation. */
module ActionsSim {
  import opened Flippers
  import opened Actions

  /** The classes `actionsAvailable` instantiates, slot by slot. */
  const AvailableKinds: seq<Kind> :=
    [EnableLeftFlipper, DisableLeftFlipper, EnableRightFlipper, DisableRightFlipper]

  /** Builds a 4-slot vector and fills it by index with fresh action objects,
      all driving `sim`. */
  method ActionsAvailable(sim: Simulation) returns (vec: array<Action?>)
    ensures fresh(vec) && vec.Length == 4
    ensures forall i :: 0 <= i < 4 ==>
      vec[i] != null && fresh(vec[i]) && vec[i].kind == AvailableKinds[i] && vec[i].sim == sim
    ensures forall i, j :: 0 <= i < j < 4 ==> vec[i] != vec[j]
  {
    vec := new Action?[4];
    vec[0] := new Action.Flipper(EnableLeftFlipper, sim);
    vec[1] := new Action.Flipper(DisableLeftFlipper, sim);
    vec[2] := new Action.Flipper(EnableRightFlipper, sim);
    vec[3] := new Action.Flipper(DisableRightFlipper, sim);
  }

  /** One command of each kind, in a fixed order, with two per flipper: the
      i-th entry engages its flipper exactly when i is even, and entries 0
      and 1 drive the left flipper. */
  lemma AvailableKindsLayout()
    ensures |AvailableKinds| == 4
    ensures forall i, j :: 0 <= i < j < 4 ==> AvailableKinds[i] != AvailableKinds[j]
    ensures forall i :: 0 <= i < 4 ==>
      AvailableKinds[i] != Base && Engages(AvailableKinds[i]) == (i % 2 == 0)
      && ActsOnLeft(AvailableKinds[i]) == (i < 2)
  {
  }

  /** The two right flipper entries report the same identifier, the base
      "NO_ACTION", whatever the left classes declare: identifiers do not
      tell the available actions apart. */
  lemma RightFlipperUidsCoincide(declared: Kind -> string)
    ensures Uid(AvailableKinds[2], declared) == Uid(AvailableKinds[3], declared) == BASE_UID
  {
  }
}
