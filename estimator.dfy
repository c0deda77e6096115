/** The deterministic estimator of population_manager.py: from a clock
    reading and a country's base statistics to the current population and
    today's births and deaths. Time is whole seconds since the Unix epoch;
    the float arithmetic of the source is done here over exact reals, with
    365.25 written as 1461/4 and Python's `int()` as truncation toward
    zero. */
module Estimator {
  import opened Wrappers

  const SecondsPerDay: int := 86400
  /** Korea Standard Time is UTC+9, a fixed offset. */
  const KstOffset: int := 9 * 3600
  /** 2024-01-01T00:00:00Z in seconds since the Unix epoch (19723 days). */
  const GrowthEpoch: int := 1704067200
  /** The 365.25-day year used to smooth over leap years. */
  const DaysPerYear: real := 1461.0 / 4.0

  /** The official statistics of one country (the `CountryData` record). */
  datatype CountryData = CountryData(
    name: string,
    basePopulation: int,
    baseYear: int,
    baseDate: string,
    annualBirths: int,
    annualDeaths: int,
    annualGrowthRate: real,  // percent per year
    fertilityRate: real,
    lifeExpectancy: real,
    birthRate: real,         // per 1000
    deathRate: real,         // per 1000
    dataSource: string)

  /** Python's `int()` applied to a float: truncation toward zero. Dafny's
      `Floor` rounds toward minus infinity, which differs for negatives. */
  function Trunc(x: real): (r: int)
    ensures 0.0 <= x ==> r as real <= x < r as real + 1.0
    ensures x < 0.0 ==> r as real - 1.0 < x <= r as real
  {
    if x >= 0.0 then x.Floor else -((-x).Floor)
  }

  lemma TruncMonotone(x: real, y: real)
    requires x <= y
    ensures Trunc(x) <= Trunc(y)
  {
  }

  lemma TruncOfInteger(n: int)
    ensures Trunc(n as real) == n
  {
  }

  /** The statistics the manager starts from for South Korea (KOSIS 2024). */
  const SouthKoreaInitial: CountryData := CountryData(
    "South Korea", 51628117, 2024, "2024-01-01T00:00:00Z",
    216215, 325162, -0.21,
    0.748, 75.5, 4.2, 6.3,
    "KOSIS (Korean Statistical Information Service)")

  /** The statistics the manager starts from for North Korea (CIA World
      Factbook 2024); births and deaths are derived from the crude rates. */
  const NorthKoreaInitial: CountryData := CountryData(
    "North Korea", 25971909, 2024, "2024-01-01T00:00:00Z",
    Trunc(25971909.0 * 13.2 / 1000.0), Trunc(25971909.0 * 9.2 / 1000.0), 0.4,
    1.9, 72.3, 13.2, 9.2,
    "CIA World Factbook 2024")

  lemma NorthKoreaAnnualCounts()
    ensures NorthKoreaInitial.annualBirths == 342829
    ensures NorthKoreaInitial.annualDeaths == 238941
  {
  }

  // ---------------------------------------------------------------------
  // Korea time of day

  /** Whole seconds since the most recent midnight in KST. */
  function SecondsSinceMidnightKst(now: int): (r: int)
    ensures 0 <= r < SecondsPerDay
    ensures (now + KstOffset - r) % SecondsPerDay == 0
  {
    (now + KstOffset) % SecondsPerDay
  }

  /** The KST calendar day of `now`, counted in days since 1970-01-01 KST. */
  function KstDay(now: int): (d: int)
    ensures d * SecondsPerDay + SecondsSinceMidnightKst(now) == now + KstOffset
  {
    (now + KstOffset) / SecondsPerDay
  }

  /** The instant of the KST midnight that starts day `d` is at 0 seconds. */
  lemma KstMidnight(d: int)
    ensures SecondsSinceMidnightKst(d * SecondsPerDay - KstOffset) == 0
    ensures KstDay(d * SecondsPerDay - KstOffset) == d
  {
  }

  // ---------------------------------------------------------------------
  // Population

  /** Years of 365.25 days elapsed since the fixed growth epoch. */
  function YearsSinceEpoch(now: int): real {
    ((now - GrowthEpoch) as real / SecondsPerDay as real) / DaysPerYear
  }

  /** Population before truncation:
      base + rate/100 * base * (days since the epoch / 365.25). */
  function ExactPopulation(base: int, rate: real, now: int): real {
    base as real + (rate / 100.0) * (base as real) * YearsSinceEpoch(now)
  }

  /** The current population of a country. It is anchored to the fixed
      epoch, never to the record's own `baseDate` or `baseYear`. */
  function Population(c: CountryData, now: int): (r: int)
    ensures var x := ExactPopulation(c.basePopulation, c.annualGrowthRate, now);
      && (0.0 <= x ==> r as real <= x < r as real + 1.0)
      && (x < 0.0 ==> r as real - 1.0 < x <= r as real)
  {
    Trunc(ExactPopulation(c.basePopulation, c.annualGrowthRate, now))
  }

  lemma PopulationAtEpoch(c: CountryData)
    ensures Population(c, GrowthEpoch) == c.basePopulation
  {
    assert YearsSinceEpoch(GrowthEpoch) == 0.0;
    TruncOfInteger(c.basePopulation);
  }

  lemma PopulationIgnoresBaseDate(c: CountryData, year: int, date: string, now: int)
    ensures Population(c.(baseYear := year, baseDate := date), now) == Population(c, now)
  {
  }

  lemma MulNonNegative(a: real, b: real)
    requires 0.0 <= a && 0.0 <= b
    ensures 0.0 <= a * b
  {
  }

  /** The exact population changes by `rate/100 * base` per elapsed year. */
  lemma ExactPopulationDifference(base: int, rate: real, t1: int, t2: int)
    ensures ExactPopulation(base, rate, t2) - ExactPopulation(base, rate, t1)
         == (rate / 100.0) * (base as real) * (YearsSinceEpoch(t2) - YearsSinceEpoch(t1))
  {
  }

  /** With a non-negative base and a non-negative rate the estimate never falls. */
  lemma PopulationNonDecreasing(c: CountryData, t1: int, t2: int)
    requires c.basePopulation >= 0 && c.annualGrowthRate >= 0.0 && t1 <= t2
    ensures Population(c, t1) <= Population(c, t2)
  {
    var b, rate := c.basePopulation, c.annualGrowthRate;
    ExactPopulationDifference(b, rate, t1, t2);
    MulNonNegative(rate / 100.0, b as real);
    MulNonNegative((rate / 100.0) * (b as real), YearsSinceEpoch(t2) - YearsSinceEpoch(t1));
    TruncMonotone(ExactPopulation(b, rate, t1), ExactPopulation(b, rate, t2));
  }

  /** With a non-negative base and a non-positive rate the estimate never rises. */
  lemma PopulationNonIncreasing(c: CountryData, t1: int, t2: int)
    requires c.basePopulation >= 0 && c.annualGrowthRate <= 0.0 && t1 <= t2
    ensures Population(c, t2) <= Population(c, t1)
  {
    var b, rate := c.basePopulation, c.annualGrowthRate;
    ExactPopulationDifference(b, rate, t1, t2);
    MulNonNegative(-rate / 100.0, b as real);
    MulNonNegative((-rate / 100.0) * (b as real), YearsSinceEpoch(t2) - YearsSinceEpoch(t1));
    TruncMonotone(ExactPopulation(b, rate, t2), ExactPopulation(b, rate, t1));
  }

  /** South Korea one 365.25-day year after the epoch:
      trunc(51628117 - 0.0021 * 51628117) = trunc(51519697.9543). */
  lemma SouthKoreaAfterOneYear()
    ensures Population(SouthKoreaInitial, GrowthEpoch + 31557600) == 51519697
  {
    assert YearsSinceEpoch(GrowthEpoch + 31557600) == 1.0;
    assert ExactPopulation(51628117, -0.21, GrowthEpoch + 31557600) == 51519697.9543;
  }

  /** `calculate_daily_increment`: the annual increment spread over 365.25 days. */
  function DailyIncrement(c: CountryData): (r: real)
    ensures r * DaysPerYear == (c.basePopulation as real) * (c.annualGrowthRate / 100.0)
  {
    (c.basePopulation as real) * (c.annualGrowthRate / 100.0) / DaysPerYear
  }

  /** The exact population grows by exactly one daily increment per day. */
  lemma ExactPopulationPerDay(c: CountryData, now: int)
    ensures ExactPopulation(c.basePopulation, c.annualGrowthRate, now + SecondsPerDay)
         == ExactPopulation(c.basePopulation, c.annualGrowthRate, now) + DailyIncrement(c)
  {
    var b, rate := c.basePopulation, c.annualGrowthRate;
    ExactPopulationDifference(b, rate, now, now + SecondsPerDay);
    assert YearsSinceEpoch(now + SecondsPerDay) - YearsSinceEpoch(now) == 1.0 / DaysPerYear;
  }

  // ---------------------------------------------------------------------
  // Births and deaths today

  /** Births (or deaths) so far today: trunc(annual * (seconds/86400) / 365.25). */
  function CountToday(annual: int, secondsToday: int): (r: int)
    ensures annual >= 0 && secondsToday >= 0 ==> r >= 0
    ensures annual <= 0 && secondsToday >= 0 ==> r <= 0
  {
    var a, f := annual as real, (secondsToday as real) / (SecondsPerDay as real);
    MulSign(a, f);
    Trunc(a * f / DaysPerYear)
  }

  lemma MulSign(a: real, f: real)
    ensures 0.0 <= a && 0.0 <= f ==> 0.0 <= a * f
    ensures a <= 0.0 && 0.0 <= f ==> a * f <= 0.0
  {
    if 0.0 <= f {
      if 0.0 <= a { MulNonNegative(a, f); } else { MulNonNegative(-a, f); }
    }
  }

  /** For non-negative inputs the count is an exact integer division. */
  lemma CountTodayIsIntegerDivision(annual: int, secondsToday: int)
    requires annual >= 0 && secondsToday >= 0
    ensures CountToday(annual, secondsToday) == annual * secondsToday * 4 / (SecondsPerDay * 1461)
  {
    var num := annual * secondsToday * 4;
    var den := SecondsPerDay * 1461;
    var x := (annual as real) * ((secondsToday as real) / (SecondsPerDay as real)) / DaysPerYear;
    assert (num as real) == (annual as real) * (secondsToday as real) * 4.0;
    assert x == (num as real) / (den as real);
    var q := num / den;
    assert q * den <= num < q * den + den;
    assert (q * den) as real == (q as real) * (den as real);
    assert ((q + 1) * den) as real == ((q + 1) as real) * (den as real);
    assert (q as real) <= x < (q as real) + 1.0;
    MulNonNegative(annual as real, (secondsToday as real) / (SecondsPerDay as real));
  }

  lemma CountTodayAtMidnight(annual: int)
    ensures CountToday(annual, 0) == 0
  {
  }

  /** Within one day the count never falls (for a non-negative annual figure). */
  lemma CountTodayMonotone(annual: int, s1: int, s2: int)
    requires annual >= 0 && s1 <= s2
    ensures CountToday(annual, s1) <= CountToday(annual, s2)
  {
    var a := annual as real;
    var f1 := (s1 as real) / (SecondsPerDay as real);
    var f2 := (s2 as real) / (SecondsPerDay as real);
    assert CountToday(annual, s1) == Trunc(a * f1 / DaysPerYear);
    assert CountToday(annual, s2) == Trunc(a * f2 / DaysPerYear);
    ShareOfYearMonotone(a, f1, f2);
    TruncMonotone(a * f1 / DaysPerYear, a * f2 / DaysPerYear);
  }

  lemma ShareOfYearMonotone(a: real, f1: real, f2: real)
    requires 0.0 <= a && f1 <= f2
    ensures a * f1 / DaysPerYear <= a * f2 / DaysPerYear
  {
    MulNonNegative(a, f2 - f1);
    assert a * f1 <= a * f2;
  }


  /** Before the next midnight the count stays strictly below the daily
      average annual/365.25, and it is never negative. */
  lemma CountTodayBelowDailyAverage(annual: int, secondsToday: int)
    requires annual > 0 && 0 <= secondsToday < SecondsPerDay
    ensures 0 <= CountToday(annual, secondsToday)
    ensures (CountToday(annual, secondsToday) as real) < (annual as real) / DaysPerYear
  {
    var f := (secondsToday as real) / (SecondsPerDay as real);
    assert 0.0 <= f < 1.0;
    MulNonNegative(annual as real, f);
    MulNonNegative(annual as real, 1.0 - f);
    var x := (annual as real) * f / DaysPerYear;
    assert x < (annual as real) / DaysPerYear;
  }

  /** South Korea's births one second before midnight: 591, just below 216215/365.25 = 591.96. */
  lemma SouthKoreaBirthsLastSecond()
    ensures CountToday(SouthKoreaInitial.annualBirths, SecondsPerDay - 1) == 591
  {
    CountTodayIsIntegerDivision(216215, SecondsPerDay - 1);
  }

  // ---------------------------------------------------------------------
  // Per-second rates and the consistency report

  /** An annual count spread evenly over the seconds of a 365.25-day year. */
  function PerSecondRate(annual: int): (r: real)
    ensures r * (SecondsPerDay as real) * DaysPerYear == annual as real
  {
    (annual as real) / (DaysPerYear * 24.0 * 60.0 * 60.0)
  }

  /** `calculate_birth_death_rates_per_second`: births then deaths per second. */
  function BirthDeathRatesPerSecond(c: CountryData): (r: (real, real))
    ensures r.0 * (SecondsPerDay as real) * DaysPerYear == c.annualBirths as real
    ensures r.1 * (SecondsPerDay as real) * DaysPerYear == c.annualDeaths as real
  {
    (PerSecondRate(c.annualBirths), PerSecondRate(c.annualDeaths))
  }

  datatype Verification = Verification(
    annualBirths: int,
    annualDeaths: int,
    netChange: int,
    statedGrowthRate: real,
    calculatedGrowthRate: real,
    discrepancy: real)

  function Abs(x: real): real {
    if x < 0.0 then -x else x
  }

  /** `verify_calculations`: the growth rate implied by births minus deaths,
      against the stated one. `None` where the source divides by a zero base
      population (ZeroDivisionError). */
  function VerifyCalculations(c: CountryData): (r: Option<Verification>)
    ensures r.None? <==> c.basePopulation == 0
    ensures r.Some? ==>
      && r.value.annualBirths == c.annualBirths && r.value.annualDeaths == c.annualDeaths
      && r.value.netChange == c.annualBirths - c.annualDeaths
      && r.value.statedGrowthRate == c.annualGrowthRate
      && r.value.discrepancy == Abs(c.annualGrowthRate - r.value.calculatedGrowthRate)
      && r.value.calculatedGrowthRate * (c.basePopulation as real) / 100.0 == r.value.netChange as real
      && r.value.discrepancy >= 0.0
      && (r.value.discrepancy == 0.0 <==> r.value.calculatedGrowthRate == c.annualGrowthRate)
  {
    if c.basePopulation == 0 then None
    else
      var net := c.annualBirths - c.annualDeaths;
      var calculated := ((net as real) / (c.basePopulation as real)) * 100.0;
      Some(Verification(c.annualBirths, c.annualDeaths, net, c.annualGrowthRate, calculated,
                        Abs(c.annualGrowthRate - calculated)))
  }
}
