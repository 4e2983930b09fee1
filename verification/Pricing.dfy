/** Surge multiplier and fare, over the reals. */
module Pricing {
  import opened Common

  /** Conversion of a float to an integer: truncation toward zero. */
  function Trunc(x: real): int {
    if x >= 0.0 then x.Floor else -((-x).Floor)
  }

  /** Rounding to the nearest integer, halves away from zero. */
  function Round(x: real): int {
    if x >= 0.0 then (x + 0.5).Floor else -((-x + 0.5).Floor)
  }

  datatype SurgeEngine = SurgeEngine(baseThreshold: int, minMultiplier: real, maxMultiplier: real) {

    function Calculate(activeRequests: int, availableDrivers: int): real {
      if activeRequests <= baseThreshold || availableDrivers == 0 then
        if availableDrivers == 0 && activeRequests > 0 then maxMultiplier else minMultiplier
      else
        var ratio := activeRequests as real / availableDrivers as real;
        if ratio <= 1.0 then minMultiplier
        else
          var scaled := minMultiplier + (ratio - 1.0) * (maxMultiplier - minMultiplier) / 2.0;
          var capped := if scaled > maxMultiplier then maxMultiplier else scaled;
          Trunc(capped * 10.0) as real / 10.0
    }
  }

  const DEFAULT_ENGINE := SurgeEngine(5, 1.0, 3.0)

  /** The fare before it is rounded to cents. */
  function ExactFare(distanceKm: real, surge: real): real {
    2.50 + distanceKm * 1.50 * surge + 1.00
  }

  function EstimateFare(distanceKm: real, surge: real): real {
    Round(ExactFare(distanceKm, surge) * 100.0) as real / 100.0
  }

  /** What a NUMERIC(10,2) column holds after x is stored in it. */
  function StoredNumeric(x: real): real {
    Round(x * 100.0) as real / 100.0
  }

  predicate FitsNumeric(x: real) {
    -10_000_000_000 < Round(x * 100.0) < 10_000_000_000
  }

  // ---- surge in tenths ----

  /** Surge with the default configuration, as an integer number of tenths. */
  function SurgeTenths(requests: nat, drivers: nat): (tenths: int) {
    if drivers == 0 then
      if requests > 0 then 30 else 10
    else if requests <= 5 then 10
    else Max(10, Min(30, 10 * requests / drivers))
  }

  lemma FloorOfQuotient(a: int, b: int)
    requires b > 0
    ensures (a as real / b as real).Floor == a / b
  {
    var q, r := a / b, a % b;
    assert a == q * b + r;
    assert a as real == q as real * b as real + r as real;
    assert a as real / b as real == q as real + r as real / b as real;
    assert 0.0 <= r as real / b as real < 1.0;
  }

  lemma RatioScaled(requests: nat, drivers: nat)
    requires drivers > 0
    ensures requests as real / drivers as real * 10.0 == (10 * requests) as real / drivers as real
  {
  }

  /** The float formula, truncated to a tenth, is the clamped integer quotient. */
  lemma SurgeIsClampedQuotient(requests: nat, drivers: nat)
    ensures DEFAULT_ENGINE.Calculate(requests, drivers) == SurgeTenths(requests, drivers) as real / 10.0
    ensures 10 <= SurgeTenths(requests, drivers) <= 30
  {
    if requests > 5 && drivers > 0 {
      var ratio := requests as real / drivers as real;
      FloorOfQuotient(10 * requests, drivers);
      RatioScaled(requests, drivers);
      assert (ratio * 10.0).Floor == 10 * requests / drivers;
    }
  }

  /** The multiplier before it is cut to a tenth: the ratio of requests to drivers, kept within 1 and 3. */
  function ExactSurge(requests: nat, drivers: nat): real {
    if drivers == 0 then
      if requests > 0 then 3.0 else 1.0
    else if requests <= 5 || requests <= drivers then 1.0
    else if requests >= 3 * drivers then 3.0
    else requests as real / drivers as real
  }

  lemma QuotientIs(a: int, b: int, q: int)
    requires b > 0 && q * b <= a < q * b + b
    ensures a / b == q
  {
    QuotientBounds(a, b);
    OneMore(q, b);
    OneMore(a / b, b);
    if a / b < q {
      ScaleUp(a / b + 1, q, b);
    } else if a / b > q {
      ScaleUp(q + 1, a / b, b);
    }
  }

  lemma HalfUp(a: int, b: int)
    requires b > 0
    ensures a as real / b as real + 0.5 == (2 * a + b) as real / (2 * b) as real
  {
    var x, y := a as real / b as real, b as real;
    HalfMore(x, y);
    RealQuotient((2 * a + b) as real, x + 0.5, (2 * b) as real);
  }

  lemma HalfMore(x: real, y: real)
    ensures 2.0 * (x * y) + y == (x + 0.5) * (2.0 * y)
  {
  }

  lemma RealQuotient(p: real, x: real, z: real)
    requires z > 0.0 && p == x * z
    ensures p / z == x
  {
  }

  lemma RoundedQuotient(a: int, b: int)
    requires a >= 0 && b > 0
    ensures Round(a as real / b as real) == if 2 * (a % b) < b then a / b else a / b + 1
  {
    HalfUp(a, b);
    FloorOfQuotient(2 * a + b, 2 * b);
    assert a as real / b as real >= 0.0;
    var q, r := a / b, a % b;
    assert a == q * b + r;
    if 2 * r < b {
      assert q * (2 * b) == 2 * (q * b);
      QuotientIs(2 * a + b, 2 * b, q);
    } else {
      assert (q + 1) * (2 * b) == 2 * (q * b) + 2 * b;
      QuotientIs(2 * a + b, 2 * b, q + 1);
    }
  }

  lemma TenthsBetween(requests: nat, drivers: nat)
    requires drivers > 0
    ensures drivers <= requests ==> 10 <= 10 * requests / drivers
    ensures requests <= 3 * drivers ==> 10 * requests / drivers <= 30
    ensures requests <= drivers ==> 10 * requests / drivers <= 10
    ensures 3 * drivers <= requests ==> 30 <= 10 * requests / drivers
  {
    QuotientBounds(10 * requests, drivers);
    var q := 10 * requests / drivers;
    OneMore(q, drivers);
    if q < 10 {
      ScaleUp(q + 1, 10, drivers);
    }
    if q < 30 {
      ScaleUp(q + 1, 30, drivers);
    }
    if q > 10 {
      ScaleUp(11, q, drivers);
    }
    if q > 30 {
      ScaleUp(31, q, drivers);
    }
  }

  lemma CutsExactly(requests: nat, drivers: nat)
    requires requests > 5 && drivers < requests < 3 * drivers
    ensures DEFAULT_ENGINE.Calculate(requests, drivers) == (10 * requests / drivers) as real / 10.0
    ensures Round(ExactSurge(requests, drivers) * 10.0)
            == 10 * requests / drivers + if 2 * (10 * requests % drivers) < drivers then 0 else 1
  {
    SurgeIsClampedQuotient(requests, drivers);
    TenthsBetween(requests, drivers);
    RatioScaled(requests, drivers);
    RoundedQuotient(10 * requests, drivers);
  }

  /**
   The comment promises the nearest tenth.  The code meets it exactly when no quotient is taken
   or what is cut off is less than half a tenth.
   */
  lemma SurgeIsNearestTenthExactly(requests: nat, drivers: nat)
    ensures DEFAULT_ENGINE.Calculate(requests, drivers) == Round(ExactSurge(requests, drivers) * 10.0) as real / 10.0
            <==> drivers == 0 || requests <= 5 || requests <= drivers || requests >= 3 * drivers
                 || 2 * (10 * requests % drivers) < drivers
  {
    if requests > 5 && drivers < requests < 3 * drivers {
      CutsExactly(requests, drivers);
    } else {
      SurgeIsClampedQuotient(requests, drivers);
      RoundOfInteger(10);
      RoundOfInteger(30);
      if drivers > 0 {
        TenthsBetween(requests, drivers);
      }
    }
  }

  /** Eleven requests for eight drivers: 1.375, of which the nearest tenth is 1.4, gives 1.3. */
  lemma SurgeIsCutOff()
    ensures DEFAULT_ENGINE.Calculate(11, 8) == 1.3 && Round(ExactSurge(11, 8) * 10.0) == 14
  {
    SurgeIsClampedQuotient(11, 8);
  }

  lemma QuotientMonotone(a: nat, a': nat, b: nat, b': nat)
    requires a <= a' && 0 < b' <= b
    ensures a / b <= a' / b'
  {
    var q, t := a / b, a' / b';
    QuotientBounds(a, b);
    QuotientBounds(a', b');
    ScaleUp(b', b, q);
    OneMore(t, b');
    CancelFactor(q, t + 1, b');
  }

  lemma SurgeMonotone(requests: nat, requests': nat, drivers: nat, drivers': nat)
    requires requests <= requests' && drivers' <= drivers
    ensures SurgeTenths(requests, drivers) <= SurgeTenths(requests', drivers')
  {
    if drivers' > 0 && requests > 5 {
      QuotientMonotone(10 * requests, 10 * requests', drivers, drivers');
    }
  }

  /** The driver count used for surge never exceeds the 20 results of the geo search. */
  lemma SixtyRequestsAlwaysSurgeFully(requests: nat, drivers: nat)
    requires requests >= 60 && drivers <= 20
    ensures DEFAULT_ENGINE.Calculate(requests, drivers) == 3.0
  {
    SurgeIsClampedQuotient(requests, drivers);
    if drivers > 0 {
      QuotientMonotone(600, 10 * requests, 20, drivers);
    }
  }

  /**
   A threshold of 20 requests for full surge is configured and never consulted:
   with as many drivers as requests there is no surge, however many requests.
   */
  lemma NoSurgeWhenDriversMatchRequests(n: nat)
    ensures DEFAULT_ENGINE.Calculate(n, n) == 1.0
  {
    SurgeIsClampedQuotient(n, n);
    if n > 0 {
      assert 10 * n / n == 10;
    }
  }

  // ---- fare ----

  lemma RoundNear(x: real)
    ensures -0.5 <= Round(x) as real - x <= 0.5
  {
  }

  lemma RoundMonotone(x: real, y: real)
    requires x <= y
    ensures Round(x) <= Round(y)
  {
  }

  lemma RoundOfInteger(n: int)
    ensures Round(n as real) == n
  {
  }

  /** The composed fare: what a rider is quoted, from distance and the two counts. */
  function QuotedFare(distanceKm: real, requests: nat, drivers: nat): real {
    EstimateFare(distanceKm, DEFAULT_ENGINE.Calculate(requests, drivers))
  }

  lemma ProductMonotone(a: real, a': real, b: real, b': real)
    requires 0.0 <= a <= a' && 0.0 <= b <= b'
    ensures a * b <= a' * b'
  {
    assert a * b <= a' * b;
    assert a' * b <= a' * b';
  }

  lemma QuotedFareMonotone(distanceKm: real, distanceKm': real, requests: nat, requests': nat, drivers: nat,
                           drivers': nat)
    requires 0.0 <= distanceKm <= distanceKm'
    requires requests <= requests' && drivers' <= drivers
    ensures QuotedFare(distanceKm, requests, drivers) <= QuotedFare(distanceKm', requests', drivers')
  {
    SurgeIsClampedQuotient(requests, drivers);
    SurgeIsClampedQuotient(requests', drivers');
    SurgeMonotone(requests, requests', drivers, drivers');
    var s := DEFAULT_ENGINE.Calculate(requests, drivers);
    var s' := DEFAULT_ENGINE.Calculate(requests', drivers');
    ProductMonotone(distanceKm * 1.50, distanceKm' * 1.50, s, s');
    RoundMonotone(ExactFare(distanceKm, s) * 100.0, ExactFare(distanceKm', s') * 100.0);
  }

  /** 3.50 and, per kilometre, 15 cents for each tenth of surge, to the nearest cent. */
  lemma QuotedFareBounds(distanceKm: real, requests: nat, drivers: nat)
    requires distanceKm >= 0.0
    ensures QuotedFare(distanceKm, requests, drivers) >= 3.50
    ensures -0.005 <= QuotedFare(distanceKm, requests, drivers)
                      - (3.50 + 0.15 * distanceKm * SurgeTenths(requests, drivers) as real) <= 0.005
  {
    SurgeIsClampedQuotient(requests, drivers);
    var s := DEFAULT_ENGINE.Calculate(requests, drivers);
    ProductMonotone(0.0, distanceKm * 1.50, 0.0, s);
    var exact := ExactFare(distanceKm, s);
    assert exact == 3.50 + 0.15 * distanceKm * SurgeTenths(requests, drivers) as real;
    RoundNear(exact * 100.0);
    RoundMonotone(350.0, exact * 100.0);
    RoundOfInteger(350);
  }

  /** A fare is a whole number of cents, so storing it changes nothing. */
  lemma StoringAFareIsTheIdentity(distanceKm: real, surge: real)
    ensures StoredNumeric(EstimateFare(distanceKm, surge)) == EstimateFare(distanceKm, surge)
  {
    var cents := Round(ExactFare(distanceKm, surge) * 100.0);
    assert EstimateFare(distanceKm, surge) * 100.0 == cents as real;
    RoundOfInteger(cents);
  }

  /** What NUMERIC(10,2) takes: eight digits before the point, after rounding to cents. */
  lemma FitsExactly(x: real)
    ensures FitsNumeric(x) <==> -99_999_999.995 < x < 99_999_999.995
  {
  }

  /** Every fare for a distance on this planet fits, whatever the surge. */
  lemma EveryFareFits(distanceKm: real, requests: nat, drivers: nat)
    requires 0.0 <= distanceKm <= 20_040.0
    ensures FitsNumeric(QuotedFare(distanceKm, requests, drivers))
  {
    var surge := DEFAULT_ENGINE.Calculate(requests, drivers);
    SurgeIsClampedQuotient(requests, drivers);
    ProductMonotone(distanceKm * 1.5, 20_040.0 * 1.5, surge, 3.0);
    RoundNear(ExactFare(distanceKm, surge) * 100.0);
    ProductMonotone(0.0, distanceKm * 1.5, 0.0, surge);
    FitsExactly(QuotedFare(distanceKm, requests, drivers));
  }

  lemma StoringIsIdempotent(x: real)
    ensures StoredNumeric(StoredNumeric(x)) == StoredNumeric(x)
  {
    var cents := Round(x * 100.0);
    assert StoredNumeric(x) * 100.0 == cents as real;
    RoundOfInteger(cents);
  }
}
