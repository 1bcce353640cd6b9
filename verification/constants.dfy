/** Unit-conversion constants between Amber units and OpenMM units.
    π is irrational and `M_PI` is a double, so every constant that involves it
    takes `pi` as a parameter that is only known to be positive. */
module AmberConstants {

  const ANGSTROM_PER_NANOMETER: real := 10.0
  const JOULE_PER_CALORIE: real := 4.184
  const NANOMETER_PER_ANGSTROM: real := 1.0 / ANGSTROM_PER_NANOMETER
  const CALORIE_PER_JOULE: real := 1.0 / JOULE_PER_CALORIE

  /** Amber's internal time unit is 1/20.455 ps. */
  const AMBER_TIME_PER_PS: real := 20.455
  const PS_PER_AMBER_TIME: real := 1.0 / AMBER_TIME_PER_PS

  function DegreePerRadian(pi: real): (r: real)
    requires pi > 0.0
    ensures r > 0.0
    ensures r * pi == 180.0
  {
    180.0 / pi
  }

  function RadianPerDegree(pi: real): (r: real)
    requires pi > 0.0
    ensures r > 0.0
    ensures r * 180.0 == pi
  {
    1.0 / DegreePerRadian(pi)
  }

  /** Each `*_PER_*` constant is the reciprocal of its counterpart. */
  lemma ReciprocalPairs(pi: real)
    requires pi > 0.0
    ensures NANOMETER_PER_ANGSTROM * ANGSTROM_PER_NANOMETER == 1.0
    ensures CALORIE_PER_JOULE * JOULE_PER_CALORIE == 1.0
    ensures PS_PER_AMBER_TIME * AMBER_TIME_PER_PS == 1.0
    ensures RadianPerDegree(pi) * DegreePerRadian(pi) == 1.0
  {
  }

  /** Converting radians to degrees and back gives the original angle. */
  lemma DegreeRadianRoundTrip(pi: real, x: real)
    requires pi > 0.0
    ensures x * DegreePerRadian(pi) * RadianPerDegree(pi) == x
    ensures x * 180.0 / pi == x * DegreePerRadian(pi)
  {
    ReciprocalPairs(pi);
    assert x * DegreePerRadian(pi) * RadianPerDegree(pi) == x * (DegreePerRadian(pi) * RadianPerDegree(pi));
  }
}

/** The older header that declared the same conversion constants next to the
    topology class.  Its calorie constant differs from the newer header's. */
module LegacyParmConstants {
  import AmberConstants

  const ANGSTROM_PER_NANOMETER: real := 10.0
  const JOULE_PER_CALORIE: real := 4.814
  const NANOMETER_PER_ANGSTROM: real := 1.0 / ANGSTROM_PER_NANOMETER
  const CALORIE_PER_JOULE: real := 1.0 / JOULE_PER_CALORIE

  /** The legacy header spells the angle constants the same way: 180/π and
      its reciprocal. */
  function DegreePerRadian(pi: real): (r: real)
    requires pi > 0.0
    ensures r > 0.0
    ensures r * pi == 180.0
  {
    180.0 / pi
  }

  function RadianPerDegree(pi: real): (r: real)
    requires pi > 0.0
    ensures r > 0.0
    ensures r * 180.0 == pi
  {
    1.0 / DegreePerRadian(pi)
  }

  lemma LegacyReciprocals(pi: real)
    requires pi > 0.0
    ensures NANOMETER_PER_ANGSTROM * ANGSTROM_PER_NANOMETER == 1.0
    ensures CALORIE_PER_JOULE * JOULE_PER_CALORIE == 1.0
    ensures RadianPerDegree(pi) * DegreePerRadian(pi) == 1.0
  {
  }

  /** The two headers agree on lengths and angles but not on energies: a
      value converted with one header's calorie constant is off by about 15%
      in the other. */
  lemma LegacyCalorieDisagrees(pi: real)
    requires pi > 0.0
    ensures ANGSTROM_PER_NANOMETER == AmberConstants.ANGSTROM_PER_NANOMETER
    ensures DegreePerRadian(pi) == AmberConstants.DegreePerRadian(pi)
    ensures RadianPerDegree(pi) == AmberConstants.RadianPerDegree(pi)
    ensures JOULE_PER_CALORIE != AmberConstants.JOULE_PER_CALORIE
    ensures JOULE_PER_CALORIE - AmberConstants.JOULE_PER_CALORIE == 0.63
  {
  }
}
