/** The derived rating: 80 * speed * k / (3019 - year + 1), with k = 1/2 for
    a used ship and 1 otherwise. */
module ShipRating {
  import opened Wrappers
  import opened Ships
  import opened ShipValidation

  const EarliestYear: int := 2800
  /** The year the rating formula counts from. */
  const CurrentYear: int := 3019

  /** `yearOf` gives the calendar year of an instant. It is supplied by the
      caller; it is required to place every admissible production instant in
      a year between 2800 and 3019. */
  ghost predicate YearOfAgrees(yearOf: int -> int) {
    forall t :: DateOk(t) ==> EarliestYear <= yearOf(t) <= CurrentYear
  }

  /** The wear factor k. */
  function UsedFactor(used: bool): real {
    if used then 0.5 else 1.0
  }

  /** The denominator of the formula. Over the production years it ranges
      over 1..220, so it is never zero. */
  function YearDivisor(year: int): (d: int)
    ensures EarliestYear <= year <= CurrentYear ==> 1 <= d <= CurrentYear - EarliestYear + 1
  {
    CurrentYear - year + 1
  }

  /** The record carries what the formula reads, and the denominator it
      yields is non-zero. */
  predicate Rateable(ship: Ship, yearOf: int -> int) {
    && ship.used.Some?
    && ship.speed.Some?
    && ship.prodDate.Some?
    && YearDivisor(yearOf(ship.prodDate.value)) != 0
  }

  /** The rating of a record, before the final rounding to two decimals.
      For an admissible speed and production year it lies between
      1/550 (speed 0.01, used, year 2800) and 79.2 (speed 0.99, new, year 3019). */
  function CountRating(ship: Ship, yearOf: int -> int): (r: real)
    requires Rateable(ship, yearOf)
    ensures SpeedOk(ship.speed.value) && EarliestYear <= yearOf(ship.prodDate.value) <= CurrentYear
            ==> 1.0 / 550.0 <= r <= 79.2
  {
    var year := yearOf(ship.prodDate.value);
    FormulaBounds(ship.speed.value, ship.used.value, year);
    80.0 * SpeedValue(ship.speed.value) * UsedFactor(ship.used.value) / YearDivisor(year) as real
  }

  lemma FormulaBounds(speed: int, used: bool, year: int)
    requires YearDivisor(year) != 0
    ensures SpeedOk(speed) && EarliestYear <= year <= CurrentYear ==>
              1.0 / 550.0 <= 80.0 * SpeedValue(speed) * UsedFactor(used) / YearDivisor(year) as real <= 79.2
  {
    if SpeedOk(speed) && EarliestYear <= year <= CurrentYear {
      NumeratorBounds(speed, used);
      QuotientBounds(80.0 * SpeedValue(speed) * UsedFactor(used), YearDivisor(year) as real);
    }
  }

  lemma NumeratorBounds(speed: int, used: bool)
    requires SpeedOk(speed)
    ensures 0.4 <= 80.0 * SpeedValue(speed) * UsedFactor(used) <= 79.2
  {
    assert 0.01 <= SpeedValue(speed) <= 0.99;
  }

  lemma QuotientBounds(n: real, d: real)
    requires 0.4 <= n <= 79.2
    requires 1.0 <= d <= 220.0
    ensures 1.0 / 550.0 <= n / d <= 79.2
  {
    var q := n / d;
    assert q * d == n;
    assert (79.2 - q) * d == 79.2 * d - n;
    SignOfFactor(79.2 - q, d);
    assert (q - 1.0 / 550.0) * d == n - d / 550.0;
    SignOfFactor(q - 1.0 / 550.0, d);
  }

  lemma PositiveFactor(x: real, d: real)
    requires d > 0.0 && x * d > 0.0
    ensures x > 0.0
  {
  }

  lemma SignOfFactor(x: real, d: real)
    requires d > 0.0 && x * d >= 0.0
    ensures x >= 0.0
  {
  }

  /** A record valid for creation that carries `used` can be rated, with a
      denominator in 1..220. */
  lemma ValidIsRateable(ship: Ship, yearOf: int -> int)
    requires YearOfAgrees(yearOf)
    requires IsValidShipCreated(ship) && ship.used.Some?
    ensures Rateable(ship, yearOf)
    ensures 1 <= YearDivisor(yearOf(ship.prodDate.value)) <= 220
  {
    assert DateOk(ship.prodDate.value);
  }

  /** The rating reads nothing but speed, `used` and the production year. */
  lemma RatingDependsOnlyOnSpeedUsedYear(a: Ship, b: Ship, yearOf: int -> int)
    requires Rateable(a, yearOf) && Rateable(b, yearOf)
    requires a.speed == b.speed && a.used == b.used
    requires yearOf(a.prodDate.value) == yearOf(b.prodDate.value)
    ensures CountRating(a, yearOf) == CountRating(b, yearOf)
  {
    var year := yearOf(a.prodDate.value);
    assert yearOf(b.prodDate.value) == year;
  }

  /** Marking a ship used halves its rating. */
  lemma UsedHalvesRating(ship: Ship, yearOf: int -> int)
    requires Rateable(ship, yearOf)
    ensures CountRating(ship.(used := Some(true)), yearOf) * 2.0
            == CountRating(ship.(used := Some(false)), yearOf)
  {
    var d := YearDivisor(yearOf(ship.prodDate.value)) as real;
    var whole := 80.0 * SpeedValue(ship.speed.value);
    assert CountRating(ship.(used := Some(true)), yearOf) == whole * 0.5 / d;
    assert CountRating(ship.(used := Some(false)), yearOf) == whole * 1.0 / d;
    assert (whole * 0.5 / d) * 2.0 == whole / d;
  }

  /** Among admissible years, a later production year gives a strictly
      higher rating to a ship of positive speed. */
  lemma LaterYearRatesHigher(older: Ship, newer: Ship, yearOf: int -> int)
    requires Rateable(older, yearOf) && Rateable(newer, yearOf)
    requires older.speed == newer.speed && older.used == newer.used
    requires SpeedOk(older.speed.value)
    requires EarliestYear <= yearOf(older.prodDate.value) < yearOf(newer.prodDate.value) <= CurrentYear
    ensures CountRating(older, yearOf) < CountRating(newer, yearOf)
  {
    var n := 80.0 * SpeedValue(older.speed.value) * UsedFactor(older.used.value);
    NumeratorBounds(older.speed.value, older.used.value);
    var dOld := YearDivisor(yearOf(older.prodDate.value)) as real;
    var dNew := YearDivisor(yearOf(newer.prodDate.value)) as real;
    assert 1.0 <= dNew < dOld;
    var qOld := n / dOld;
    var qNew := n / dNew;
    assert qOld * dOld == n;
    assert qNew * dNew == n;
    QuotientBounds(n, dOld);
    var gap := dOld - dNew;
    assert qOld * gap > 0.0;
    var diff := qNew - qOld;
    assert diff * dNew == qOld * gap;
    assert diff * dNew > 0.0;
    PositiveFactor(diff, dNew);
    assert CountRating(older, yearOf) == qOld;
    assert CountRating(newer, yearOf) == qNew;
  }
}
