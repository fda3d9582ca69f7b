/**
  The tag every physics body carries: what kind of table part it is and the
  reward a collision with it is worth.
 */
module SimUserData {

  /** The six kinds of table part. */
  datatype Type = Border | Ball | Flipper | Kicker | Pins | GameOver

  const AllTypes: set<Type> := {Border, Ball, Flipper, Kicker, Pins, GameOver}

  /** There are exactly six tags. */
  lemma SixTypes()
    ensures forall t: Type :: t in AllTypes
    ensures |AllTypes| == 6
  {
    forall t: Type ensures t in AllTypes {
      match t
      case Border =>
      case Ball =>
      case Flipper =>
      case Kicker =>
      case Pins =>
      case GameOver =>
    }
  }

  /** A body's tag; `reward` is the reward given on collision, 0 for none. */
  datatype UserData = UserData(kind: Type, reward: int)

  /** The constructor, whose reward defaults to 0 ("no reward"). */
  function NewUserData(kind: Type, reward: int := 0): (u: UserData)
    ensures u.kind == kind && u.reward == reward
  {
    UserData(kind, reward)
  }

  /** Omitting the reward gives a tag that carries no reward. */
  lemma DefaultRewardIsNone(kind: Type)
    ensures NewUserData(kind).reward == 0
  {
  }
}

/**
  The contact listener consulted before the physics engine resolves a
  contact.  A pure classification of the two bodies' tags decides what
  happens; the listener then applies it to the contact, the ball body and
  the game-over callback.
 */
module SimContact {
  import opened SimUserData

  /** The force the kicker applies to the ball, in newtons. */
  const KICKER_FORCE_X: real := 0.0
  const KICKER_FORCE_Y: real := 1.0

  /** Which of the contact's two fixtures a body belongs to. */
  datatype Fixture = FixtureA | FixtureB

  function Other(f: Fixture): Fixture {
    if f == FixtureA then FixtureB else FixtureA
  }

  /** What pre-solving a contact does. */
  datatype Outcome =
    | NoEffect
    | DisableContact
    | KickBall(ball: Fixture, fx: real, fy: real)
    | RunGameOver

  /** The outcome with fixtures A and B exchanged. */
  function Mirror(o: Outcome): Outcome {
    if o.KickBall? then o.(ball := Other(o.ball)) else o
  }

  /** The outcome once the ball has been found on fixture `ball` and the
      other body is tagged `other`. */
  function BallContact(ball: Fixture, other: Type): Outcome {
    if other == Pins then NoEffect
    else if other == Kicker then KickBall(ball, KICKER_FORCE_X, KICKER_FORCE_Y)
    else if other == GameOver then RunGameOver
    else NoEffect
  }

  /** The decision of `PreSolve` for a contact that is `enabled` between a
      body tagged `a` (fixture A) and one tagged `b` (fixture B). */
  function Classify(enabled: bool, a: Type, b: Type): (o: Outcome)
    ensures !enabled ==> o == NoEffect
    ensures o == DisableContact <==>
      enabled && a != Ball && b != Ball && (a == Flipper || b == Flipper)
      && (a == Flipper || a == Border) && (b == Flipper || b == Border)
    ensures o.KickBall? <==>
      enabled && ((a == Ball && b == Kicker) || (a == Kicker && b == Ball))
    ensures o.KickBall? ==>
      o.fx == KICKER_FORCE_X && o.fy == KICKER_FORCE_Y
      && o.ball == (if a == Ball then FixtureA else FixtureB)
    ensures o == RunGameOver <==>
      enabled && ((a == Ball && b == GameOver) || (a == GameOver && b == Ball))
  {
    if !enabled then NoEffect
    else if a == Ball then BallContact(FixtureA, b)
    else if b == Ball then BallContact(FixtureB, a)
    else if a == Flipper && b == Border then DisableContact
    else if b == Flipper && a == Border then DisableContact
    else if b == Flipper && a == Flipper then DisableContact
    else NoEffect
  }

  /** Once a ball is involved, the other body alone decides, and the flipper
      rules never apply. */
  lemma BallTakesPrecedence(a: Type, b: Type)
    requires a == Ball || b == Ball
    ensures Classify(true, a, b) ==
      if a == Ball then BallContact(FixtureA, b) else BallContact(FixtureB, a)
    ensures Classify(true, a, b) != DisableContact
  {
  }

  /** A ball touching pins, a border, a flipper or another ball leaves the
      contact as it is. */
  lemma PassiveBallContacts(a: Type, b: Type)
    requires (a == Ball && b in {Pins, Border, Flipper, Ball})
          || (b == Ball && a in {Pins, Border, Flipper})
    ensures Classify(true, a, b) == NoEffect
  {
  }

  /** The classification does not depend on which body the engine lists
      first, apart from naming the ball's fixture. */
  lemma ClassifySymmetric(enabled: bool, a: Type, b: Type)
    ensures Classify(enabled, b, a) == Mirror(Classify(enabled, a, b))
  {
  }

  /** A physics body: its tag, the force accumulated for the next step and
      whether it is awake. */
  class Body {
    const data: UserData
    var forceX: real
    var forceY: real
    var awake: bool

    constructor (data: UserData)
      ensures this.data == data && forceX == 0.0 && forceY == 0.0 && !awake
    {
      this.data := data;
      forceX, forceY, awake := 0.0, 0.0, false;
    }

    /** Box2D's `ApplyForceToCenter(force, true)` on a dynamic body: wakes it
        and adds the force. */
    method ApplyForceToCenter(fx: real, fy: real)
      modifies this
      ensures awake
      ensures forceX == old(forceX) + fx && forceY == old(forceY) + fy
    {
      awake := true;
      forceX, forceY := forceX + fx, forceY + fy;
    }
  }

  /** A contact between the bodies of fixture A and fixture B. */
  class Contact {
    var enabled: bool
    const bodyA: Body
    const bodyB: Body

    constructor (a: Body, b: Body)
      ensures bodyA == a && bodyB == b && enabled
    {
      bodyA, bodyB, enabled := a, b, true;
    }

    function BodyOf(f: Fixture): Body {
      if f == FixtureA then bodyA else bodyB
    }
  }

  /** The listener; `gameOverCalls` counts the invocations of the game-over
      callback it was constructed with. */
  class ContactListener {
    var gameOverCalls: nat

    constructor ()
      ensures gameOverCalls == 0
    {
      gameOverCalls := 0;
    }

    /** Inspects a contact before the solver sees it and applies the
        classified outcome: disabling the contact, kicking the ball, or
        calling the game-over callback once. */
    method PreSolve(contact: Contact)
      modifies this, contact, contact.bodyA, contact.bodyB
      ensures
        var o := Classify(old(contact.enabled), contact.bodyA.data.kind, contact.bodyB.data.kind);
        && contact.enabled == (old(contact.enabled) && o != DisableContact)
        && gameOverCalls == old(gameOverCalls) + (if o == RunGameOver then 1 else 0)
        && (o.KickBall? ==>
              var ball := contact.BodyOf(o.ball);
              var other := contact.BodyOf(Other(o.ball));
              && ball.awake
              && ball.forceX == old(ball.forceX) + KICKER_FORCE_X
              && ball.forceY == old(ball.forceY) + KICKER_FORCE_Y
              && unchanged(other))
        && (!o.KickBall? ==> unchanged(contact.bodyA, contact.bodyB))
    {
      if contact.enabled {
        var dataA := contact.bodyA.data;
        var dataB := contact.bodyB.data;
        var ball: Body;
        var other: Body;
        if dataA.kind == Ball {
          ball, other := contact.bodyA, contact.bodyB;
        } else if dataB.kind == Ball {
          ball, other := contact.bodyB, contact.bodyA;
        } else if dataA.kind == Flipper && dataB.kind == Border {
          contact.enabled := false;
          return;
        } else if dataB.kind == Flipper && dataA.kind == Border {
          contact.enabled := false;
          return;
        } else if dataB.kind == Flipper && dataA.kind == Flipper {
          contact.enabled := false;
          return;
        } else {
          return;
        }

        if other.data.kind == Pins {
          return;
        } else if other.data.kind == Kicker {
          ball.ApplyForceToCenter(KICKER_FORCE_X, KICKER_FORCE_Y);
          return;
        } else if other.data.kind == GameOver {
          gameOverCalls := gameOverCalls + 1;
          return;
        }
      }
    }
  }
}
