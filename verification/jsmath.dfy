/** The two JavaScript number conversions the server applies, over exact reals. */
module JsMath {

  /** `Math.round`: the integer nearest to `x`, a half going up (towards +infinity). */
  function Round(x: real): (r: int)
    ensures r as real - 0.5 <= x < r as real + 0.5
  {
    (x + 0.5).Floor
  }

  /** The nearest-integer property pins `Round` down: no other integer satisfies it. */
  lemma RoundIsNearest(x: real, n: int)
    requires n as real - 0.5 <= x < n as real + 0.5
    ensures Round(x) == n
  {
  }

  lemma RoundMonotone(x: real, y: real)
    requires x <= y
    ensures Round(x) <= Round(y)
  {
  }

  /** `parseInt` applied to a stored number: its decimal rendering cut at the point,
      which is truncation toward zero. */
  function ParseInt(v: real): (r: int)
    ensures 0.0 <= v ==> 0 <= r && r as real <= v < r as real + 1.0
    ensures v < 0.0 ==> r <= 0 && r as real - 1.0 < v <= r as real
  {
    if v >= 0.0 then v.Floor else -((-v).Floor)
  }
}
