/** The colour table of the traffic light: for each colour, the colour that
    follows it and how long (in milliseconds) it stays lit in normal cycling. */
module Lights {

  datatype Color = Red | Yellow | Green

  datatype Light = Light(next: Color, duration: nat)

  /** The `lights` record of the component. The values are the ones the code
      uses; the requirement comments above it name other durations. */
  function Lights(c: Color): Light
  {
    match c
    case Red => Light(Green, 5000)
    case Green => Light(Yellow, 3000)
    case Yellow => Light(Red, 3000)
  }

  /** The colour shown after `c` in normal cycling; never `c` itself, so every
      cycling step changes the light. */
  function Next(c: Color): (n: Color)
    ensures n != c
  {
    Lights(c).next
  }

  /** How long `c` stays lit in normal cycling; always a positive delay, so a
      re-armed timer always lies in the future. */
  function Duration(c: Color): (d: nat)
    ensures d > 0
  {
    Lights(c).duration
  }

  /** Applies `Next` n times. */
  function NextN(c: Color, n: nat): Color
    decreases n
  {
    if n == 0 then c else NextN(Next(c), n - 1)
  }

  /** Total dwell time of the n colours lit after `c`, in the order cycling lights them. */
  function Dwell(c: Color, n: nat): nat
    decreases n
  {
    if n == 0 then 0 else Duration(Next(c)) + Dwell(Next(c), n - 1)
  }

  /** One full loop red -> green -> yellow -> red. */
  const CycleMs: nat := Duration(Red) + Duration(Green) + Duration(Yellow)

  /** `Next` is a 3-cycle through all three colours: Red -> Green -> Yellow -> Red. */
  lemma NextIsThreeCycle(c: Color)
    ensures Next(c) != c && Next(Next(c)) != c && Next(Next(c)) != Next(c)
    ensures NextN(c, 3) == c
    ensures {c, Next(c), Next(Next(c))} == {Red, Yellow, Green}
    ensures Next(Red) == Green && Next(Green) == Yellow && Next(Yellow) == Red
  {
  }

  /** Three cycling steps from any colour light each colour once, so they take one full loop. */
  lemma {:induction false} ThreeStepsTakeOneLoop(c: Color, n: nat)
    ensures NextN(c, 3 * n) == c
    ensures Dwell(c, 3 * n) == n * CycleMs
  {
    if n > 0 {
      ThreeStepsTakeOneLoop(c, n - 1);
      NextN3(c, 3 * (n - 1));
      DwellSplit(c, 3 * (n - 1));
    }
  }

  lemma {:induction false} NextN3(c: Color, m: nat)
    requires NextN(c, m) == c
    ensures NextN(c, m + 3) == c
  {
    NextNShift(c, m, 3);
    NextIsThreeCycle(c);
  }

  lemma {:induction false} NextNShift(c: Color, m: nat, k: nat)
    ensures NextN(c, m + k) == NextN(NextN(c, m), k)
    decreases m
  {
    if m > 0 {
      NextNShift(Next(c), m - 1, k);
    }
  }

  lemma {:induction false} DwellAppend(c: Color, m: nat, k: nat)
    ensures Dwell(c, m + k) == Dwell(c, m) + Dwell(NextN(c, m), k)
    decreases m
  {
    if m > 0 {
      DwellAppend(Next(c), m - 1, k);
    }
  }

  lemma {:induction false} DwellSplit(c: Color, m: nat)
    requires NextN(c, m) == c
    ensures Dwell(c, m + 3) == Dwell(c, m) + CycleMs
  {
    DwellAppend(c, m, 3);
    assert Dwell(c, 3) == CycleMs by {
      match c
      case Red =>
      case Green =>
      case Yellow =>
    }
  }
}
