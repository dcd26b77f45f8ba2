/** `math.cos` and `math.sin` as parameters.

    Every angle the generators pass to the trigonometric functions is a
    multiple of 2π: the slant direction is `random() * 2π` and the crack
    profile uses `2π · i / max_steps` and `π · (3 · i / max_steps - 1)`. The
    model therefore measures angles in turns: `cosTurn(t)` is cos(2πt) and
    `sinTurn(t)` is sin(2πt). The functions themselves are not computed; a
    caller supplies them, and the facts the proofs rely on are stated by
    `Valid`. */
module Trig {

  datatype Trig = Trig(cosTurn: real -> real, sinTurn: real -> real) {

    /** The facts about cos and sin that the properties of the generators
        need: both are bounded by 1, cos is 1 at whole turns and -1 at half a
        turn, and cos is even around a whole turn. */
    ghost predicate Valid() {
      (forall t :: -1.0 <= cosTurn(t) <= 1.0) &&
      (forall t :: -1.0 <= sinTurn(t) <= 1.0) &&
      cosTurn(0.0) == 1.0 && cosTurn(1.0) == 1.0 && cosTurn(0.5) == -1.0 &&
      (forall t, u :: t + u == 1.0 ==> cosTurn(t) == cosTurn(u))
    }
  }
}
