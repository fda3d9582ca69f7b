/**
  The part of the physics simulation the agent's actions act on: the motor
  flag of each flipper's revolute joint.  Joint geometry, torque and the
  physics step are not modelled; a flipper is "up" while its motor is on.
 */
module Flippers {

  /** The pair of motor flags, as a value. */
  datatype MotorFlags = MotorFlags(left: bool, right: bool)

  class Simulation {
    var leftMotor: bool
    var rightMotor: bool

    /** Both joints are created with their motor disabled. */
    constructor ()
      ensures !leftMotor && !rightMotor
    {
      leftMotor, rightMotor := false, false;
    }

    function Flags(): MotorFlags
      reads this
    {
      MotorFlags(leftMotor, rightMotor)
    }

    method EnableLeftFlipper()
      modifies this
      ensures leftMotor && rightMotor == old(rightMotor)
    {
      leftMotor := true;
    }

    method DisableLeftFlipper()
      modifies this
      ensures !leftMotor && rightMotor == old(rightMotor)
    {
      leftMotor := false;
    }

    method EnableRightFlipper()
      modifies this
      ensures rightMotor && leftMotor == old(leftMotor)
    {
      rightMotor := true;
    }

    method DisableRightFlipper()
      modifies this
      ensures !rightMotor && leftMotor == old(leftMotor)
    {
      rightMotor := false;
    }
  }
}
