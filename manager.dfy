/** The population manager of population_manager.py: the service object
    that holds both countries' statistics, the last computed figures and
    the list of connected viewers, and drives one broadcast tick at a time.
    Clock readings arrive as parameters; a viewer is any value that can be
    compared for equality (the channel handle); a tick is told which
    viewers' sends fail instead of performing socket I/O. */
module Manager {
  import opened Wrappers
  import opened Estimator
  import opened Viewers
  import Strings

  /** Seconds between two resync hints. */
  const ResyncInterval: int := 30

  /** A single birth or death (the `PopulationEvent` record). No event is
      ever recorded: the lists that carry them are always empty. */
  datatype PopulationEvent = PopulationEvent(country: string, eventType: string, timestamp: real)

  /** One snapshot of the estimate (the `PopulationState` record). */
  datatype PopulationState = PopulationState(
    timestamp: int,
    southKoreaPopulation: int,
    northKoreaPopulation: int,
    totalPopulation: int,
    skBirthsToday: int,
    skDeathsToday: int,
    nkBirthsToday: int,
    nkDeathsToday: int,
    secondsSinceMidnightKst: int)

  /** The snapshot both countries' statistics give at instant `now`. */
  function Snapshot(sk: CountryData, nk: CountryData, now: int): (s: PopulationState)
    ensures s.timestamp == now
    ensures s.totalPopulation == s.southKoreaPopulation + s.northKoreaPopulation
    ensures 0 <= s.secondsSinceMidnightKst < SecondsPerDay
  {
    var secondsToday := SecondsSinceMidnightKst(now);
    var skPop := Population(sk, now);
    var nkPop := Population(nk, now);
    PopulationState(now, skPop, nkPop, skPop + nkPop,
                    CountToday(sk.annualBirths, secondsToday), CountToday(sk.annualDeaths, secondsToday),
                    CountToday(nk.annualBirths, secondsToday), CountToday(nk.annualDeaths, secondsToday),
                    secondsToday)
  }

  /** At the growth epoch the total is the sum of the two base populations. */
  lemma SnapshotAtEpoch(sk: CountryData, nk: CountryData)
    ensures Snapshot(sk, nk, GrowthEpoch).totalPopulation == sk.basePopulation + nk.basePopulation
  {
    PopulationAtEpoch(sk);
    PopulationAtEpoch(nk);
  }

  /** The daily counters restart from zero at every KST midnight. */
  lemma SnapshotAtKstMidnight(sk: CountryData, nk: CountryData, day: int)
    ensures var s := Snapshot(sk, nk, day * SecondsPerDay - KstOffset);
      s.secondsSinceMidnightKst == 0 &&
      s.skBirthsToday == 0 && s.skDeathsToday == 0 && s.nkBirthsToday == 0 && s.nkDeathsToday == 0
  {
    KstMidnight(day);
  }

  // ---------------------------------------------------------------------
  // Administrative updates

  /** The `new_data` mapping handed to the manager: a field is `None` when
      its key is absent. */
  datatype UpdateData = UpdateData(
    population: Option<int>,
    year: Option<int>,
    date: Option<string>,
    births: Option<int>,
    deaths: Option<int>,
    growthRate: Option<real>)

  /** The record after an update: a field takes the new value when its key
      is present and keeps its old value otherwise. */
  function ApplyUpdate(c: CountryData, d: UpdateData): (r: CountryData)
    ensures r.name == c.name && r.dataSource == c.dataSource
    ensures r.fertilityRate == c.fertilityRate && r.lifeExpectancy == c.lifeExpectancy
    ensures r.birthRate == c.birthRate && r.deathRate == c.deathRate
  {
    c.(basePopulation := d.population.GetOr(c.basePopulation),
       baseYear := d.year.GetOr(c.baseYear),
       baseDate := d.date.GetOr(c.baseDate),
       annualBirths := d.births.GetOr(c.annualBirths),
       annualDeaths := d.deaths.GetOr(c.annualDeaths),
       annualGrowthRate := d.growthRate.GetOr(c.annualGrowthRate))
  }

  /** Field by field: present keys replace, absent keys keep, and the name,
      the source and the other indicators are never touched. */
  lemma ApplyUpdateFields(c: CountryData, d: UpdateData)
    ensures var r := ApplyUpdate(c, d);
      && (d.population.Some? ==> r.basePopulation == d.population.value)
      && (d.population.None? ==> r.basePopulation == c.basePopulation)
      && (d.year.Some? ==> r.baseYear == d.year.value)
      && (d.year.None? ==> r.baseYear == c.baseYear)
      && (d.date.Some? ==> r.baseDate == d.date.value)
      && (d.date.None? ==> r.baseDate == c.baseDate)
      && (d.births.Some? ==> r.annualBirths == d.births.value)
      && (d.births.None? ==> r.annualBirths == c.annualBirths)
      && (d.deaths.Some? ==> r.annualDeaths == d.deaths.value)
      && (d.deaths.None? ==> r.annualDeaths == c.annualDeaths)
      && (d.growthRate.Some? ==> r.annualGrowthRate == d.growthRate.value)
      && (d.growthRate.None? ==> r.annualGrowthRate == c.annualGrowthRate)
      && r.name == c.name && r.dataSource == c.dataSource
      && r.fertilityRate == c.fertilityRate && r.lifeExpectancy == c.lifeExpectancy
      && r.birthRate == c.birthRate && r.deathRate == c.deathRate
  {
  }

  /** An update with no keys changes nothing. */
  lemma ApplyEmptyUpdate(c: CountryData)
    ensures ApplyUpdate(c, UpdateData(None, None, None, None, None, None)) == c
  {
  }

  /** Applying the same update twice is applying it once. */
  lemma ApplyUpdateIdempotent(c: CountryData, d: UpdateData)
    ensures ApplyUpdate(ApplyUpdate(c, d), d) == ApplyUpdate(c, d)
  {
  }

  /** An update that names neither births nor deaths leaves today's counts
      unchanged at every instant, whatever it does to the growth rate. */
  lemma UpdateWithoutCountsKeepsDailyCounts(sk: CountryData, nk: CountryData, d: UpdateData, now: int)
    requires d.births.None? && d.deaths.None?
    ensures var before, after := Snapshot(sk, nk, now), Snapshot(ApplyUpdate(sk, d), nk, now);
      after.skBirthsToday == before.skBirthsToday && after.skDeathsToday == before.skDeathsToday
    ensures var before, after := Snapshot(sk, nk, now), Snapshot(sk, ApplyUpdate(nk, d), now);
      after.nkBirthsToday == before.nkBirthsToday && after.nkDeathsToday == before.nkDeathsToday
  {
  }

  // ---------------------------------------------------------------------
  // The tick message and the resync hint

  datatype SimulationRates = SimulationRates(
    skBirthsPerSec: real,
    skDeathsPerSec: real,
    nkBirthsPerSec: real,
    nkDeathsPerSec: real)

  /** The message one tick sends to every viewer. `koreaTime` is the
      "HH:MM:SS" rendering of a separate clock reading. */
  datatype TickMessage = TickMessage(
    timestamp: int,
    southKoreaPopulation: int,
    northKoreaPopulation: int,
    totalPopulation: int,
    skBirthsToday: int,
    skDeathsToday: int,
    nkBirthsToday: int,
    nkDeathsToday: int,
    koreaTime: string,
    secondsSinceMidnight: int,
    isResync: bool,
    simulationRates: SimulationRates,
    anyBirth: bool,
    anyDeath: bool)

  function TickMessageOf(s: PopulationState, koreaTime: string, isResync: bool, rates: SimulationRates): (m: TickMessage)
    ensures m.timestamp == s.timestamp && m.totalPopulation == s.totalPopulation
    ensures m.secondsSinceMidnight == s.secondsSinceMidnightKst && m.isResync == isResync
    ensures !m.anyBirth && !m.anyDeath
  {
    TickMessage(s.timestamp, s.southKoreaPopulation, s.northKoreaPopulation, s.totalPopulation,
                s.skBirthsToday, s.skDeathsToday, s.nkBirthsToday, s.nkDeathsToday,
                koreaTime, s.secondsSinceMidnightKst, isResync, rates, false, false)
  }

  /** One tick's resync decision: the hint and the new last-resync time. The
      hint is raised once at least `ResyncInterval` seconds have passed, and
      the last-resync time only ever moves forward, to the tick's time. */
  function ResyncStep(lastResync: int, now: int): (r: (bool, int))
    ensures r.0 ==> r.1 == now && now >= lastResync + ResyncInterval
    ensures !r.0 ==> r.1 == lastResync && now < lastResync + ResyncInterval
  {
    var isResync := now - lastResync >= ResyncInterval;
    (isResync, if isResync then now else lastResync)
  }

  /** The hints of a run of ticks (each with at least one viewer) at `times`. */
  function ResyncFlags(lastResync: int, times: seq<int>): (flags: seq<bool>)
    ensures |flags| == |times|
    decreases |times|
  {
    if times == [] then []
    else
      var step := ResyncStep(lastResync, times[0]);
      [step.0] + ResyncFlags(step.1, times[1..])
  }

  /** Every hint in a run comes at least `ResyncInterval` after the resync
      the run started from. */
  lemma {:induction false} ResyncFlagsAfterStart(lastResync: int, times: seq<int>, j: int)
    requires 0 <= j < |times| && ResyncFlags(lastResync, times)[j]
    ensures times[j] >= lastResync + ResyncInterval
    decreases |times|
  {
    if j > 0 {
      var step := ResyncStep(lastResync, times[0]);
      assert ResyncFlags(lastResync, times)[j] == ResyncFlags(step.1, times[1..])[j - 1];
      ResyncFlagsAfterStart(step.1, times[1..], j - 1);
    }
  }

  /** Two raised hints are always at least `ResyncInterval` seconds apart,
      whatever the spacing of the ticks. */
  lemma {:induction false} ResyncHintsSpaced(lastResync: int, times: seq<int>, i: int, j: int)
    requires 0 <= i < j < |times|
    requires ResyncFlags(lastResync, times)[i] && ResyncFlags(lastResync, times)[j]
    ensures times[j] - times[i] >= ResyncInterval
    decreases |times|
  {
    var step := ResyncStep(lastResync, times[0]);
    var rest := ResyncFlags(step.1, times[1..]);
    assert ResyncFlags(lastResync, times)[j] == rest[j - 1];
    if i == 0 {
      assert step.1 == times[0];
      ResyncFlagsAfterStart(step.1, times[1..], j - 1);
    } else {
      assert ResyncFlags(lastResync, times)[i] == rest[i - 1];
      ResyncHintsSpaced(step.1, times[1..], i - 1, j - 1);
    }
  }

  /** The converse: a tick at least `ResyncInterval` after the resync the
      run started from is preceded by, or is itself, a raised hint. */
  lemma {:induction false} DueTickResyncs(lastResync: int, times: seq<int>, j: int)
    requires 0 <= j < |times| && times[j] >= lastResync + ResyncInterval
    ensures exists k :: 0 <= k <= j && ResyncFlags(lastResync, times)[k]
    decreases |times|
  {
    var step := ResyncStep(lastResync, times[0]);
    var flags := ResyncFlags(lastResync, times);
    if !step.0 {
      assert j > 0 && step.1 == lastResync;
      var rest := ResyncFlags(step.1, times[1..]);
      DueTickResyncs(step.1, times[1..], j - 1);
      var k :| 0 <= k <= j - 1 && rest[k];
      assert flags[k + 1] == rest[k];
    } else {
      assert flags[0];
    }
  }

  /** After a raised hint, the run goes on as a fresh run whose last resync
      is that hint's tick. */
  lemma {:induction false} ResyncFlagsAfterHint(lastResync: int, times: seq<int>, i: int)
    requires 0 <= i < |times| && ResyncFlags(lastResync, times)[i]
    ensures ResyncFlags(lastResync, times)[i + 1..] == ResyncFlags(times[i], times[i + 1..])
    decreases |times|
  {
    var step := ResyncStep(lastResync, times[0]);
    var rest := ResyncFlags(step.1, times[1..]);
    assert ResyncFlags(lastResync, times) == [step.0] + rest;
    if i > 0 {
      assert rest[i - 1] == ResyncFlags(lastResync, times)[i];
      ResyncFlagsAfterHint(step.1, times[1..], i - 1);
      assert times[1..][i - 1] == times[i] && times[1..][i..] == times[i + 1..];
    }
  }

  /** Hints keep coming: once a tick is at least `ResyncInterval` after a
      raised hint, some tick after that hint and no later than it raises the
      next one. With a tick every second, a hint is raised every 30 s. */
  lemma HintFollowsHint(lastResync: int, times: seq<int>, i: int, j: int)
    requires 0 <= i < j < |times| && ResyncFlags(lastResync, times)[i]
    requires times[j] >= times[i] + ResyncInterval
    ensures exists k :: i < k <= j && ResyncFlags(lastResync, times)[k]
  {
    var flags := ResyncFlags(lastResync, times);
    ResyncFlagsAfterHint(lastResync, times, i);
    var tail := times[i + 1..];
    assert tail[j - i - 1] == times[j];
    DueTickResyncs(times[i], tail, j - i - 1);
    var k :| 0 <= k <= j - i - 1 && ResyncFlags(times[i], tail)[k];
    assert flags[i + 1 + k] == flags[i + 1..][k];
  }

  /** What `get_static_data` returns; `lastUpdated` is an ISO rendering of a clock reading. */
  datatype StaticData = StaticData(southKorea: CountryData, northKorea: CountryData, lastUpdated: string)

  // ---------------------------------------------------------------------
  // The manager

  class PopulationManager<C(==)> {
    var connectedClients: seq<C>
    var lastUpdateTime: int
    var lastResyncTime: int
    var skPopulation: int
    var nkPopulation: int
    var skBirthsToday: int
    var skDeathsToday: int
    var nkBirthsToday: int
    var nkDeathsToday: int
    var currentDay: int
    var southKoreaData: CountryData
    var northKoreaData: CountryData
    var skBirthsPerSec: real
    var skDeathsPerSec: real
    var nkBirthsPerSec: real
    var nkDeathsPerSec: real
    /** Only set by the first administrative update of that country. */
    var skDailyIncrement: Option<real>
    var nkDailyIncrement: Option<real>

    /** The per-second rates (and daily increments, once set) are derived
        from the current statistics. */
    ghost predicate Valid()
      reads this
    {
      && (skBirthsPerSec, skDeathsPerSec) == BirthDeathRatesPerSecond(southKoreaData)
      && (nkBirthsPerSec, nkDeathsPerSec) == BirthDeathRatesPerSecond(northKoreaData)
      && (skDailyIncrement.Some? ==> skDailyIncrement.value == DailyIncrement(southKoreaData))
      && (nkDailyIncrement.Some? ==> nkDailyIncrement.value == DailyIncrement(northKoreaData))
    }

    function Rates(): SimulationRates
      reads this
    {
      SimulationRates(skBirthsPerSec, skDeathsPerSec, nkBirthsPerSec, nkDeathsPerSec)
    }

    constructor (now: int)
      ensures Valid()
      ensures connectedClients == []
      ensures lastUpdateTime == now && lastResyncTime == now && currentDay == KstDay(now)
      ensures southKoreaData == SouthKoreaInitial && northKoreaData == NorthKoreaInitial
      ensures skPopulation == 0 && nkPopulation == 0
      ensures skBirthsToday == 0 && skDeathsToday == 0 && nkBirthsToday == 0 && nkDeathsToday == 0
      ensures skDailyIncrement == None && nkDailyIncrement == None
    {
      connectedClients := [];
      lastUpdateTime := now;
      lastResyncTime := now;
      skPopulation, nkPopulation := 0, 0;
      skBirthsToday, skDeathsToday, nkBirthsToday, nkDeathsToday := 0, 0, 0, 0;
      currentDay := KstDay(now);
      southKoreaData := SouthKoreaInitial;
      northKoreaData := NorthKoreaInitial;
      skDailyIncrement, nkDailyIncrement := None, None;
      new;
      var skRates := BirthDeathRatesPerSecond(southKoreaData);
      skBirthsPerSec, skDeathsPerSec := skRates.0, skRates.1;
      var nkRates := BirthDeathRatesPerSecond(northKoreaData);
      nkBirthsPerSec, nkDeathsPerSec := nkRates.0, nkRates.1;
    }

    /** `calculate_current_population` at clock reading `now`: stores the new
        figures in the manager's fields and returns them as a snapshot. */
    method CalculateCurrentPopulation(now: int) returns (state: PopulationState)
      modifies this`currentDay, this`lastUpdateTime, this`skPopulation, this`nkPopulation
      modifies this`skBirthsToday, this`skDeathsToday, this`nkBirthsToday, this`nkDeathsToday
      ensures state == Snapshot(southKoreaData, northKoreaData, now)
      ensures skPopulation == state.southKoreaPopulation && nkPopulation == state.northKoreaPopulation
      ensures skBirthsToday == state.skBirthsToday && skDeathsToday == state.skDeathsToday
      ensures nkBirthsToday == state.nkBirthsToday && nkDeathsToday == state.nkDeathsToday
      ensures currentDay == KstDay(now) && lastUpdateTime == now
    {
      var currentDate := KstDay(now);
      if currentDate != currentDay {
        currentDay := currentDate;
      }
      skPopulation := Population(southKoreaData, now);
      nkPopulation := Population(northKoreaData, now);
      var secondsToday := SecondsSinceMidnightKst(now);
      skBirthsToday := CountToday(southKoreaData.annualBirths, secondsToday);
      skDeathsToday := CountToday(southKoreaData.annualDeaths, secondsToday);
      nkBirthsToday := CountToday(northKoreaData.annualBirths, secondsToday);
      nkDeathsToday := CountToday(northKoreaData.annualDeaths, secondsToday);
      lastUpdateTime := now;
      state := PopulationState(now, skPopulation, nkPopulation, skPopulation + nkPopulation,
                               skBirthsToday, skDeathsToday, nkBirthsToday, nkDeathsToday, secondsToday);
    }

    /** `add_client`: the viewer is appended, even if already present. */
    method AddClient(c: C)
      modifies this`connectedClients
      ensures connectedClients == old(connectedClients) + [c]
    {
      connectedClients := connectedClients + [c];
    }

    /** `remove_client`: the first entry of the viewer goes, if there is one. */
    method RemoveClient(c: C)
      modifies this`connectedClients
      ensures connectedClients == RemoveFirst(old(connectedClients), c)
      ensures c in old(connectedClients) ==> |connectedClients| == |old(connectedClients)| - 1
      ensures c !in old(connectedClients) ==> connectedClients == old(connectedClients)
    {
      if c in connectedClients {
        RemoveFirstCounts(connectedClients, c);
        connectedClients := RemoveFirst(connectedClients, c);
      }
    }

    /** `broadcast_update`, one tick: with no viewers nothing happens;
        otherwise the resync hint is decided, the message goes to every
        viewer, and the viewers in `failing` (whose send raises) are removed
        afterwards. Returns the message sent, if any. */
    method BroadcastUpdate(state: PopulationState, koreaTime: string, failing: set<C>)
      returns (message: Option<TickMessage>)
      modifies this`connectedClients, this`lastResyncTime
      ensures old(connectedClients) == [] ==>
        message == None && connectedClients == [] && lastResyncTime == old(lastResyncTime)
      ensures old(connectedClients) != [] ==>
        var step := ResyncStep(old(lastResyncTime), state.timestamp);
        && lastResyncTime == step.1
        && message == Some(TickMessageOf(state, koreaTime, step.0, Rates()))
        && connectedClients == Survivors(old(connectedClients), failing)
    {
      if connectedClients == [] {
        return None;
      }
      var currentTime := state.timestamp;
      var isResyncTime := currentTime - lastResyncTime >= ResyncInterval;
      if isResyncTime {
        lastResyncTime := currentTime;
      }
      var msg := TickMessageOf(state, koreaTime, isResyncTime, Rates());

      // Send to every viewer, collecting those whose send fails.
      var clients, lastResync := connectedClients, lastResyncTime;
      var disconnected: seq<C> := [];
      var i := 0;
      while i < |clients|
        invariant 0 <= i <= |clients|
        invariant disconnected == Failed(clients[..i], failing)
        invariant connectedClients == clients && lastResyncTime == lastResync
      {
        FailedSnoc(clients[..i], clients[i], failing);
        assert clients[..i + 1] == clients[..i] + [clients[i]];
        if clients[i] in failing {
          disconnected := disconnected + [clients[i]];
        }
        i := i + 1;
      }
      assert clients[..|clients|] == clients;
      RemoveFailedLeavesSurvivors([], clients, failing);
      assert [] + clients == clients;
      assert disconnected[0..] == disconnected;

      // Remove them one by one.
      var j := 0;
      while j < |disconnected|
        invariant 0 <= j <= |disconnected|
        invariant RemoveEach(connectedClients, disconnected[j..]) == Survivors(clients, failing)
        invariant lastResyncTime == lastResync
      {
        assert disconnected[j..][0] == disconnected[j] && disconnected[j..][1..] == disconnected[j + 1..];
        RemoveClient(disconnected[j]);
        j := j + 1;
      }
      message := Some(msg);
    }

    /** `update_base_data`: for a recognised country (compared in lower
        case) each present key replaces its field and the derived rates are
        recomputed; the other country and every other field stay as they
        were; an unrecognised country changes nothing. */
    method UpdateBaseData(country: string, d: UpdateData)
      requires Valid()
      modifies this`southKoreaData, this`northKoreaData, this`skDailyIncrement, this`nkDailyIncrement
      modifies this`skBirthsPerSec, this`skDeathsPerSec, this`nkBirthsPerSec, this`nkDeathsPerSec
      ensures Valid()
      ensures Strings.Lower(country) == "south_korea" ==>
        && southKoreaData == ApplyUpdate(old(southKoreaData), d)
        && skDailyIncrement == Some(DailyIncrement(southKoreaData))
        && northKoreaData == old(northKoreaData) && nkDailyIncrement == old(nkDailyIncrement)
        && nkBirthsPerSec == old(nkBirthsPerSec) && nkDeathsPerSec == old(nkDeathsPerSec)
      ensures Strings.Lower(country) == "north_korea" ==>
        && northKoreaData == ApplyUpdate(old(northKoreaData), d)
        && nkDailyIncrement == Some(DailyIncrement(northKoreaData))
        && southKoreaData == old(southKoreaData) && skDailyIncrement == old(skDailyIncrement)
        && skBirthsPerSec == old(skBirthsPerSec) && skDeathsPerSec == old(skDeathsPerSec)
      ensures Strings.Lower(country) != "south_korea" && Strings.Lower(country) != "north_korea" ==>
        unchanged(this)
    {
      var key := Strings.Lower(country);
      if key == "south_korea" {
        southKoreaData := southKoreaData.(basePopulation := d.population.GetOr(southKoreaData.basePopulation));
        southKoreaData := southKoreaData.(baseYear := d.year.GetOr(southKoreaData.baseYear));
        southKoreaData := southKoreaData.(baseDate := d.date.GetOr(southKoreaData.baseDate));
        southKoreaData := southKoreaData.(annualBirths := d.births.GetOr(southKoreaData.annualBirths));
        southKoreaData := southKoreaData.(annualDeaths := d.deaths.GetOr(southKoreaData.annualDeaths));
        southKoreaData := southKoreaData.(annualGrowthRate := d.growthRate.GetOr(southKoreaData.annualGrowthRate));
        skDailyIncrement := Some(DailyIncrement(southKoreaData));
        var skRates := BirthDeathRatesPerSecond(southKoreaData);
        skBirthsPerSec, skDeathsPerSec := skRates.0, skRates.1;
      } else if key == "north_korea" {
        northKoreaData := northKoreaData.(basePopulation := d.population.GetOr(northKoreaData.basePopulation));
        northKoreaData := northKoreaData.(baseYear := d.year.GetOr(northKoreaData.baseYear));
        northKoreaData := northKoreaData.(baseDate := d.date.GetOr(northKoreaData.baseDate));
        northKoreaData := northKoreaData.(annualBirths := d.births.GetOr(northKoreaData.annualBirths));
        northKoreaData := northKoreaData.(annualDeaths := d.deaths.GetOr(northKoreaData.annualDeaths));
        northKoreaData := northKoreaData.(annualGrowthRate := d.growthRate.GetOr(northKoreaData.annualGrowthRate));
        nkDailyIncrement := Some(DailyIncrement(northKoreaData));
        var nkRates := BirthDeathRatesPerSecond(northKoreaData);
        nkBirthsPerSec, nkDeathsPerSec := nkRates.0, nkRates.1;
      }
    }

    /** One turn of the `start_broadcasting` loop: compute the snapshot at
        `now`, then broadcast it. */
    method Tick(now: int, koreaTime: string, failing: set<C>) returns (message: Option<TickMessage>)
      modifies this`currentDay, this`lastUpdateTime, this`skPopulation, this`nkPopulation
      modifies this`skBirthsToday, this`skDeathsToday, this`nkBirthsToday, this`nkDeathsToday
      modifies this`connectedClients, this`lastResyncTime
      ensures old(connectedClients) == [] ==> message == None && lastResyncTime == old(lastResyncTime)
      ensures old(connectedClients) != [] ==>
        var step := ResyncStep(old(lastResyncTime), now);
        && lastResyncTime == step.1
        && message == Some(TickMessageOf(Snapshot(southKoreaData, northKoreaData, now), koreaTime, step.0, Rates()))
      ensures connectedClients == Survivors(old(connectedClients), failing)
      ensures lastUpdateTime == now && currentDay == KstDay(now)
      ensures var s := Snapshot(southKoreaData, northKoreaData, now);
        && skPopulation == s.southKoreaPopulation && nkPopulation == s.northKoreaPopulation
        && skBirthsToday == s.skBirthsToday && skDeathsToday == s.skDeathsToday
        && nkBirthsToday == s.nkBirthsToday && nkDeathsToday == s.nkDeathsToday
    {
      var state := CalculateCurrentPopulation(now);
      message := BroadcastUpdate(state, koreaTime, failing);
    }

    /** `get_static_data`: copies of both current records. */
    method GetStaticData(lastUpdated: string) returns (r: StaticData)
      ensures r.southKorea == southKoreaData && r.northKorea == northKoreaData
      ensures r.lastUpdated == lastUpdated
    {
      r := StaticData(southKoreaData, northKoreaData, lastUpdated);
    }
  }
}
