/** Facts of real arithmetic that more than one file needs. */
module RealFacts {
  lemma TimesMonotone(a: real, b: real, x: real)
    requires a <= b && x >= 0.0
    ensures a * x <= b * x
  {
    assert (b - a) * x >= 0.0;
  }
}
