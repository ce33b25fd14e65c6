/** The key lines (src/key_controller.cpp): one output bit per motor in the
    GPIOB output data register, bit n-1 for motor n. */
module Keys {
  import opened Wire
  import opened Masks

  /** Motor numbers run from 1 to MAX_MOTORS. */
  predicate IsMotorNumber(n: nat)
  {
    1 <= n <= MAX_MOTORS
  }

  /** The register after `setKey(motorNum, state)`. */
  function SetKeyBits(odr: Mask, motorNum: U8, state: bool): (r: Mask)
    ensures !IsMotorNumber(motorNum) ==> r == odr
    ensures IsMotorNumber(motorNum) ==> (motorNum - 1 in r <==> state)
    ensures forall k :: k != motorNum - 1 ==> (k in r <==> k in odr)
    ensures InWord(odr) ==> InWord(r)
  {
    if motorNum < 1 || motorNum > MAX_MOTORS then odr
    else if state then odr + {motorNum - 1}
    else odr - {motorNum - 1}
  }

  /** The register after `clearAll()`: `ODR &= ~0x3FF`. */
  function ClearAllBits(odr: Mask): (r: Mask)
    ensures forall k :: k in r <==> k in odr && k >= MAX_MOTORS
    ensures InWord(odr) ==> InWord(r)
  {
    odr - MOTOR_SLOTS
  }

  /** `isKeySet(motorNum)`. */
  function KeySet(odr: Mask, motorNum: U8): (r: bool)
    ensures r <==> IsMotorNumber(motorNum) && motorNum - 1 in odr
  {
    if motorNum < 1 || motorNum > MAX_MOTORS then false
    else motorNum - 1 in odr
  }

  /** Setting a key and reading it back gives the value set; keys of other
      motors keep their value. */
  lemma SetKeyThenQuery(odr: Mask, motorNum: U8, state: bool, other: U8)
    requires IsMotorNumber(motorNum) && other != motorNum
    ensures KeySet(SetKeyBits(odr, motorNum, state), motorNum) == state
    ensures KeySet(SetKeyBits(odr, motorNum, state), other) == KeySet(odr, other)
  {
  }

  /** After `clearAll` no key is set, whatever was set before. */
  lemma ClearAllReleasesEveryKey(odr: Mask, motorNum: U8)
    ensures !KeySet(ClearAllBits(odr), motorNum)
  {
  }

  /** Pulsing a key (set, then cleared) leaves it cleared and every other
      bit as it was. */
  lemma PulseClearsKey(odr: Mask, motorNum: U8)
    requires IsMotorNumber(motorNum)
    ensures SetKeyBits(SetKeyBits(odr, motorNum, true), motorNum, false) == odr - {motorNum - 1}
  {
  }

  /** The output register that holds the key lines, a 16-bit port. */
  class KeyLines {
    var odr: Mask

    constructor (odr: Mask)
      requires InWord(odr)
      ensures this.odr == odr && InWord(this.odr)
    {
      this.odr := odr;
    }

    /** `KeyController::setKey`. */
    method SetKey(motorNum: U8, state: bool)
      modifies this
      ensures odr == SetKeyBits(old(odr), motorNum, state)
      ensures InWord(old(odr)) ==> InWord(odr)
    {
      if motorNum < 1 || motorNum > MAX_MOTORS {
        return;
      }
      var pin := motorNum - 1;
      if state {
        odr := odr + {pin};
      } else {
        odr := odr - {pin};
      }
    }

    /** `KeyController::clearAll`. */
    method ClearAll()
      modifies this
      ensures odr == ClearAllBits(old(odr))
      ensures InWord(old(odr)) ==> InWord(odr)
    {
      odr := odr - MOTOR_SLOTS;
    }

    /** `KeyController::isKeySet`. */
    function IsKeySet(motorNum: U8): bool
      reads this
    {
      KeySet(odr, motorNum)
    }
  }
}
