/** The values `Math.random()` returns, shared by every component that
    draws random numbers. */
module RandomDraws {

  /** A draw of `Math.random()`: a real in `[0, 1)`. */
  predicate Unit(r: real)
  {
    0.0 <= r < 1.0
  }
}
