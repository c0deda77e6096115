/** The parts of main.py that carry logic of their own: the "comma"
    template filter, the validation and payload assembly of the
    administrative update endpoint, and the first message a new viewer
    receives. The web framework around them is not modelled. */
module Web {
  import opened Wrappers
  import opened Strings
  import opened Estimator
  import opened Manager
  import Viewers

  // ---------------------------------------------------------------------
  // comma_filter

  /** The values a template may hand to the filter. */
  datatype Value = IntValue(i: int) | FloatValue(x: real) | TextValue(s: string) | NoneValue

  /** Python's `int(value)`: `None` where it raises ValueError or TypeError. */
  function ToInt(v: Value): (r: Option<int>)
    ensures v.IntValue? ==> r == Some(v.i)
    ensures v.NoneValue? ==> r.None?
  {
    match v
    case IntValue(i) => Some(i)
    case FloatValue(x) => Some(Trunc(x))
    case TextValue(s) => ParseInt(s)
    case NoneValue => None
  }

  /** `int()` rejects any text holding a comma. */
  lemma ToIntRejectsComma(v: Value)
    requires v.TextValue? && ',' in v.s
    ensures ToInt(v).None?
  {
    ParseIntRejectsComma(v.s);
  }

  /** `comma_filter`: the integer with thousands separators, or the value
      itself when `int()` rejects it. */
  function CommaFilter(v: Value): (r: Value)
    ensures ToInt(v).None? ==> r == v
    ensures ToInt(v).Some? ==> r.TextValue? && RemoveCommas(r.s) == IntToString(ToInt(v).value)
  {
    match ToInt(v)
    case Some(n) => FormatThousandsRoundTrip(n); TextValue(FormatThousands(n))
    case None => v
  }

  /** For an integer the result is a leading "-" exactly for negatives,
      then the digits of |n| with a comma before every group of three
      counted from the right; deleting the commas gives `str(n)`. */
  lemma CommaFilterGroupsDigits(n: int)
    ensures CommaFilter(IntValue(n)).TextValue?
    ensures var r := CommaFilter(IntValue(n)).s;
      && RemoveCommas(r) == IntToString(n)
      && |r| >= 1 && (r[0] == '-' <==> n < 0)
      && GroupedInThrees(if n < 0 then r[1..] else r)
  {
    var m: nat := if n < 0 then -n else n;
    var ds := NatToDecimal(m);
    GroupedDigitsShape(ds);
    var r, g := FormatThousands(n), GroupThousands(ds);
    assert ToInt(IntValue(n)) == Some(n);
    assert CommaFilter(IntValue(n)) == TextValue(r);
    FormatThousandsRoundTrip(n);
    if n < 0 {
      assert r == "-" + g;
      assert r[1..] == g;
    } else {
      assert r == g;
    }
  }

  /** The grouped digits alone: a comma at every fourth place from the
      right, none at either end, and one per full group of three. */
  lemma GroupedDigitsShape(ds: string)
    requires |ds| >= 1 && AllDigits(ds)
    ensures GroupedInThrees(GroupThousands(ds))
  {
    var g, d := GroupThousands(ds), |ds|;
    GroupThousandsLayout(ds);
    GroupThousandsRoundTrip(ds);
    assert |g| == d + (d - 1) / 3 && RemoveCommas(g) == ds;
    GroupedLengthNotMultipleOfFour(d);
    var last := |g| - 1;
    assert g[0] == ',' <==> (|g| - 0) % 4 == 0;
    assert g[last] == ',' <==> (|g| - last) % 4 == 0;
    assert |g| - last == 1;
  }

  /** A grouped run of d digits is never a multiple of four long, so it
      can neither start nor end with a separator. */
  lemma GroupedLengthNotMultipleOfFour(d: int)
    requires d >= 1
    ensures (d + (d - 1) / 3) % 4 != 0
  {
    var k := (d - 1) / 3;
    assert d + k == 4 * k + (d - 1) % 3 + 1;
  }

  /** Applying the filter to its own output changes nothing: a result of
      up to three digits reads back as the same number, and a longer one
      holds a comma, which `int()` rejects. */
  lemma CommaFilterIdempotent(v: Value)
    ensures CommaFilter(CommaFilter(v)) == CommaFilter(v)
  {
    match ToInt(v)
    case None =>
    case Some(n) =>
      var m: nat := if n < 0 then -n else n;
      var ds := NatToDecimal(m);
      DecimalLength(m);
      var f := FormatThousands(n);
      if |ds| <= 3 {
        assert f == IntToString(n);
        ParseIntRoundTrip(n);
      } else {
        GroupThousandsHasComma(ds);
        assert ',' in f by {
          if n < 0 {
            var k :| 0 <= k < |GroupThousands(ds)| && GroupThousands(ds)[k] == ',';
            assert f[k + 1] == ',';
          }
        }
        ParseIntRejectsComma(f);
      }
  }

  lemma SouthKoreaBaseDigits()
    ensures NatToDecimal(51628117) == "51628117"
  {
    assert NatToDecimal(5) == "5";
    assert NatToDecimal(51) == "51";
    assert NatToDecimal(516) == "516";
    assert NatToDecimal(5162) == "5162";
    assert NatToDecimal(51628) == "51628";
    assert NatToDecimal(516281) == "516281";
    assert NatToDecimal(5162811) == "5162811";
  }

  /** South Korea's base population as the page shows it. */
  lemma CommaFilterPopulationExample()
    ensures CommaFilter(IntValue(51628117)) == TextValue("51,628,117")
  {
    SouthKoreaBaseDigits();
    SouthKoreaBaseGrouped();
    assert FormatThousands(51628117) == "51,628,117";
  }

  lemma SouthKoreaBaseGrouped()
    ensures GroupThousands("51628117") == "51,628,117"
  {
    assert "51628"[..2] == "51" && "51628"[2..] == "628";
    assert GroupThousands("51628") == "51" + "," + "628";
    assert "51628117"[..5] == "51628" && "51628117"[5..] == "117";
    assert GroupThousands("51628117") == "51,628" + "," + "117";
  }

  /** An information separator is not whitespace to `int()`, so text
      that starts with one passes through untouched. */
  lemma CommaFilterSeparatorExample()
    ensures CommaFilter(TextValue("\U{1C}12")) == TextValue("\U{1C}12")
  {
    var s := "\U{1C}12";
    assert StripLeft(s) == s && StripRight(s) == s;
    assert !IsDigitBody(s) by { assert !IsDigit(s[0]); }
  }

  /** A string that is not a number passes through untouched. */
  lemma CommaFilterTextExample()
    ensures CommaFilter(TextValue("n/a")) == TextValue("n/a")
  {
    assert StripLeft("n/a") == "n/a";
    assert StripRight("n/a") == "n/a";
    assert Strip("n/a") == "n/a";
    assert !IsDigitBody("n/a") by { assert !IsDigit("n/a"[0]); }
  }

  // ---------------------------------------------------------------------
  // The administrative update endpoint

  /** The key expected when the ADMIN_UPDATE_KEY variable is not set. */
  const DefaultAdminKey: string := "admin-secret-key"

  datatype HttpError = HttpError(status: int, detail: string)

  datatype AdminSuccess = AdminSuccess(status: string, message: string, updatedData: UpdateData, timestamp: string)

  /** The `update_data` mapping the endpoint hands to the manager. */
  function AdminPayload(population: int, year: int, births: Option<int>, deaths: Option<int>,
                        growthRate: Option<real>): (d: UpdateData)
    ensures d.population == Some(population) && d.year == Some(year) && d.date.Some?
    ensures d.births == births && d.deaths == deaths && d.growthRate == growthRate
  {
    UpdateData(Some(population), Some(year), Some(IntToString(year) + "-01-01T00:00:00Z"),
               births, deaths, growthRate)
  }

  /** The payload always carries population, year and the first instant of
      that year as the date; births, deaths and growth rate appear exactly
      when supplied. */
  lemma AdminPayloadKeys(population: int, year: int, births: Option<int>, deaths: Option<int>,
                         growthRate: Option<real>)
    ensures var d := AdminPayload(population, year, births, deaths, growthRate);
      && d.population == Some(population) && d.year == Some(year)
      && d.date.Some? && d.date.value[..|IntToString(year)|] == IntToString(year)
      && d.date.value[|IntToString(year)|..] == "-01-01T00:00:00Z"
      && (d.births.Some? <==> births.Some?) && (d.deaths.Some? <==> deaths.Some?)
      && (d.growthRate.Some? <==> growthRate.Some?)
  {
    var y := IntToString(year);
    assert (y + "-01-01T00:00:00Z")[..|y|] == y;
    assert (y + "-01-01T00:00:00Z")[|y|..] == "-01-01T00:00:00Z";
  }

  /** What the endpoint does to a country record: population and year are
      always replaced, and an omitted births, deaths or growth rate leaves
      the stored value as it was. */
  lemma AdminUpdateEffect(c: CountryData, population: int, year: int, births: Option<int>,
                          deaths: Option<int>, growthRate: Option<real>)
    ensures var r := ApplyUpdate(c, AdminPayload(population, year, births, deaths, growthRate));
      && r.basePopulation == population && r.baseYear == year
      && (births.None? ==> r.annualBirths == c.annualBirths)
      && (births.Some? ==> r.annualBirths == births.value)
      && (deaths.None? ==> r.annualDeaths == c.annualDeaths)
      && (deaths.Some? ==> r.annualDeaths == deaths.value)
      && (growthRate.None? ==> r.annualGrowthRate == c.annualGrowthRate)
      && (growthRate.Some? ==> r.annualGrowthRate == growthRate.value)
  {
    ApplyUpdateFields(c, AdminPayload(population, year, births, deaths, growthRate));
  }

  /** The endpoint's checks, in order: the admin key (401), then the country
      (400). On success, the manager receives the lower-cased country. */
  function ValidateAdminUpdate(envKey: Option<string>, adminKey: Option<string>, country: string,
                               population: int, year: int, births: Option<int>, deaths: Option<int>,
                               growthRate: Option<real>): (r: Result<(string, UpdateData), HttpError>)
    ensures adminKey != Some(envKey.GetOr(DefaultAdminKey)) ==> r.Err? && r.error.status == 401
    ensures adminKey == Some(envKey.GetOr(DefaultAdminKey)) ==>
      (r.Err? <==> Lower(country) != "south_korea" && Lower(country) != "north_korea")
    ensures adminKey == Some(envKey.GetOr(DefaultAdminKey)) && r.Err? ==> r.error.status == 400
    ensures r.Ok? ==> r.value.0 == Lower(country) && (r.value.0 == "south_korea" || r.value.0 == "north_korea")
    ensures r.Ok? ==> r.value.1 == AdminPayload(population, year, births, deaths, growthRate)
  {
    var expected := envKey.GetOr(DefaultAdminKey);
    if adminKey != Some(expected) then Err(HttpError(401, "Invalid admin key"))
    else if Lower(country) != "south_korea" && Lower(country) != "north_korea" then
      Err(HttpError(400, "Country must be 'south_korea' or 'north_korea'"))
    else Ok((Lower(country), AdminPayload(population, year, births, deaths, growthRate)))
  }

  /** The endpoint as a whole: a rejected request changes nothing; an
      accepted one updates exactly the named country's record. */
  method HandleAdminUpdate<C(==)>(m: PopulationManager<C>, envKey: Option<string>, adminKey: Option<string>,
                                  country: string, population: int, year: int, births: Option<int>,
                                  deaths: Option<int>, growthRate: Option<real>, timestamp: string)
    returns (r: Result<AdminSuccess, HttpError>)
    requires m.Valid()
    modifies m`southKoreaData, m`northKoreaData, m`skDailyIncrement, m`nkDailyIncrement
    modifies m`skBirthsPerSec, m`skDeathsPerSec, m`nkBirthsPerSec, m`nkDeathsPerSec
    ensures m.Valid()
    ensures var v := ValidateAdminUpdate(envKey, adminKey, country, population, year, births, deaths, growthRate);
      && (v.Err? ==> r == Err(v.error) && unchanged(m))
      && (v.Ok? ==> r.Ok? && r.value.updatedData == v.value.1 && r.value.status == "success")
    ensures var d := AdminPayload(population, year, births, deaths, growthRate);
      r.Ok? && Lower(country) == "south_korea" ==>
        && m.southKoreaData == ApplyUpdate(old(m.southKoreaData), d) && m.northKoreaData == old(m.northKoreaData)
        && m.skDailyIncrement == Some(DailyIncrement(m.southKoreaData)) && m.nkDailyIncrement == old(m.nkDailyIncrement)
        && m.nkBirthsPerSec == old(m.nkBirthsPerSec) && m.nkDeathsPerSec == old(m.nkDeathsPerSec)
    ensures var d := AdminPayload(population, year, births, deaths, growthRate);
      r.Ok? && Lower(country) == "north_korea" ==>
        && m.northKoreaData == ApplyUpdate(old(m.northKoreaData), d) && m.southKoreaData == old(m.southKoreaData)
        && m.nkDailyIncrement == Some(DailyIncrement(m.northKoreaData)) && m.skDailyIncrement == old(m.skDailyIncrement)
        && m.skBirthsPerSec == old(m.skBirthsPerSec) && m.skDeathsPerSec == old(m.skDeathsPerSec)
  {
    var v := ValidateAdminUpdate(envKey, adminKey, country, population, year, births, deaths, growthRate);
    if v.Err? {
      return Err(v.error);
    }
    var (key, updateData) := v.value;
    LowerIdempotent(country);
    m.UpdateBaseData(key, updateData);
    r := Ok(AdminSuccess("success", "Updated " + country + " base data", updateData, timestamp));
  }

  // ---------------------------------------------------------------------
  // The first message on a new connection

  datatype EventIndicators = EventIndicators(
    southKoreaBirth: bool,
    southKoreaDeath: bool,
    northKoreaBirth: bool,
    northKoreaDeath: bool,
    anyBirth: bool,
    anyDeath: bool)

  datatype InitialData = InitialData(
    southKoreaPopulation: int,
    northKoreaPopulation: int,
    totalPopulation: int,
    skBirthsToday: int,
    skDeathsToday: int,
    nkBirthsToday: int,
    nkDeathsToday: int,
    koreaTime: string,
    eventIndicators: EventIndicators,
    recentVisualEvents: seq<PopulationEvent>,
    recentEvents: seq<PopulationEvent>)

  datatype InitialMessage = InitialMessage(messageType: string, data: InitialData)

  /** The `initial_message` built from one snapshot. */
  function InitialMessageOf(s: PopulationState, koreaTime: string): (m: InitialMessage)
    ensures m.messageType == "initial_state"
    ensures m.data.eventIndicators == EventIndicators(false, false, false, false, false, false)
    ensures m.data.recentVisualEvents == [] && m.data.recentEvents == []
  {
    InitialMessage("initial_state",
      InitialData(s.southKoreaPopulation, s.northKoreaPopulation, s.totalPopulation,
                  s.skBirthsToday, s.skDeathsToday, s.nkBirthsToday, s.nkDeathsToday, koreaTime,
                  EventIndicators(false, false, false, false, false, false), [], []))
  }

  /** The initial message and a tick message built from the same snapshot
      report the same figures, so a receiver can treat them alike. */
  lemma InitialMessageAgreesWithTick(s: PopulationState, koreaTime: string, isResync: bool, rates: SimulationRates)
    ensures var i, t := InitialMessageOf(s, koreaTime).data, TickMessageOf(s, koreaTime, isResync, rates);
      && i.southKoreaPopulation == t.southKoreaPopulation && i.northKoreaPopulation == t.northKoreaPopulation
      && i.totalPopulation == t.totalPopulation
      && i.skBirthsToday == t.skBirthsToday && i.skDeathsToday == t.skDeathsToday
      && i.nkBirthsToday == t.nkBirthsToday && i.nkDeathsToday == t.nkDeathsToday
      && i.koreaTime == t.koreaTime
      && i.eventIndicators.anyBirth == t.anyBirth && i.eventIndicators.anyDeath == t.anyDeath
  {
  }

  /** The opening of `websocket_endpoint`: register the viewer, compute a
      snapshot at `now` and build the initial message from it. */
  method OpenViewer<C(==)>(m: PopulationManager<C>, viewer: C, now: int, koreaTime: string)
    returns (msg: InitialMessage)
    modifies m`connectedClients, m`currentDay, m`lastUpdateTime, m`skPopulation, m`nkPopulation
    modifies m`skBirthsToday, m`skDeathsToday, m`nkBirthsToday, m`nkDeathsToday
    ensures m.connectedClients == old(m.connectedClients) + [viewer]
    ensures msg == InitialMessageOf(Snapshot(m.southKoreaData, m.northKoreaData, now), koreaTime)
    ensures msg.data.totalPopulation == msg.data.southKoreaPopulation + msg.data.northKoreaPopulation
    ensures m.lastUpdateTime == now && m.currentDay == KstDay(now)
    ensures var s := Snapshot(m.southKoreaData, m.northKoreaData, now);
      && m.skPopulation == s.southKoreaPopulation && m.nkPopulation == s.northKoreaPopulation
      && m.skBirthsToday == s.skBirthsToday && m.skDeathsToday == s.skDeathsToday
      && m.nkBirthsToday == s.nkBirthsToday && m.nkDeathsToday == s.nkDeathsToday
  {
    m.AddClient(viewer);
    var state := m.CalculateCurrentPopulation(now);
    msg := InitialMessageOf(state, koreaTime);
  }

  /** The `finally` of `websocket_endpoint`: the viewer's first entry goes. */
  method CloseViewer<C(==)>(m: PopulationManager<C>, viewer: C)
    modifies m`connectedClients
    ensures m.connectedClients == Viewers.RemoveFirst(old(m.connectedClients), viewer)
  {
    m.RemoveClient(viewer);
  }
}
