/**
 * `BedwarsStats`: the object built from a Hypixel response that carries a
 * player's Bedwars counters, most-played mode, experience, level, progress
 * and winstreak, for one mode (`strict_mode`) or, per mode, for all six.
 */
module Stats {
  import opened PyValues
  import opened PyText
  import opened Leveling
  import opened Progress
  import opened Modes
  import opened Players

  /**
   * `player.get('stats', {}).get('Bedwars', {})`, followed by the first
   * `.get` on the result. Any level that is not an object ends in
   * `AttributeError`; missing levels read as empty objects.
   */
  function BedwarsSection(player: Json): (r: Result<map<string, Json>>)
    ensures r.Raises? ==> r.error == AttributeError
    ensures player == JObj(map[]) ==> r == Ok(map[])
    ensures r.Ok? <==>
      && player.JObj?
      && Get(player.fields, "stats", JObj(map[])).JObj?
      && Get(Get(player.fields, "stats", JObj(map[])).fields, "Bedwars", JObj(map[])).JObj?
    ensures r.Ok? ==> JObj(r.value) == Get(Get(player.fields, "stats", JObj(map[])).fields, "Bedwars", JObj(map[]))
  {
    match player
    case JObj(fields) =>
      (match Get(fields, "stats", JObj(map[]))
       case JObj(stats) =>
         (match Get(stats, "Bedwars", JObj(map[]))
          case JObj(bedwars) => Ok(bedwars)
          case _ => Raises(AttributeError))
       case _ => Raises(AttributeError))
    case _ => Raises(AttributeError)
  }

  /**
   * `winstreak_str`: "API Off" when the winstreak is `None`, otherwise
   * `f'{winstreak:,}'`, which only an integer survives: a string raises
   * `ValueError`, a dictionary (the non-strict result) `TypeError`.
   */
  function WinstreakText(winstreak: ModeStat): (r: Result<string>)
    ensures r == Ok("API Off") <==> winstreak == Single(JNull)
    ensures winstreak.Single? && winstreak.value.JInt? ==> r.Ok? && ReadGrouped(r.value) == Some(winstreak.value.n)
    ensures r.Raises? <==> !(winstreak.Single? && (winstreak.value.JNull? || winstreak.value.JInt?))
  {
    match winstreak
    case Single(JNull) => Ok("API Off")
    case Single(JInt(n)) =>
      GroupedRoundTrip(n);
      assert Grouped(n) != "API Off" by {
        assert Grouped(n)[0] == '-' || IsDigit(Grouped(n)[0]);
      }
      Ok(Grouped(n))
    case Single(JStr(_)) => Raises(ValueError)
    case _ => Raises(TypeError)
  }

  /**
   * The exception `BedwarsStats(hypixelData, strictMode)` raises, if any, in
   * the order the constructor meets them: reading the Bedwars section
   * (`AttributeError`), `get_most_played` (`TypeError` for counts `max`
   * cannot compare), `get_progress` (`TypeError` for a non-integer
   * `Experience`), then `winstreak_str` (`TypeError` for the per-mode
   * dictionary, `ValueError` for a string).
   */
  function ConstructionError(hypixelData: map<string, Json>, strictMode: Option<string>): (e: Option<PyError>)
    ensures e == Some(AttributeError) <==> BedwarsSection(GetPlayerDict(hypixelData)).Raises?
    ensures e == Some(ValueError) ==> strictMode.Some?
    ensures var section := BedwarsSection(GetPlayerDict(hypixelData));
      section.Ok? && !Comparable(GameCounts(section.value)) ==> e == Some(TypeError)
    ensures var section := BedwarsSection(GetPlayerDict(hypixelData));
      section.Ok? && Comparable(GameCounts(section.value)) && !Get(section.value, "Experience", JInt(0)).JInt? ==>
        e == Some(TypeError)
    ensures var section := BedwarsSection(GetPlayerDict(hypixelData));
      section.Ok? && Comparable(GameCounts(section.value)) && Get(section.value, "Experience", JInt(0)).JInt? ==>
        && (strictMode.None? ==> e == Some(TypeError))
        && (strictMode.Some? && Get(section.value, StrictPrefix(strictMode.value) + "winstreak", JInt(0)).JStr? ==>
              e == Some(ValueError))
  {
    match BedwarsSection(GetPlayerDict(hypixelData))
    case Raises(e) => Some(e)
    case Ok(bedwars) =>
      var mostPlayed := GetMostPlayed(bedwars);
      var progress := GetProgress(bedwars);
      var winstreak := WinstreakText(ModeStats(bedwars, strictMode, "winstreak", JInt(0)));
      if mostPlayed.Raises? then Some(mostPlayed.error)
      else if progress.Raises? then Some(progress.error)
      else if winstreak.Raises? then Some(winstreak.error)
      else None
  }

  /**
   * When construction succeeds: the Bedwars section is an object, the five
   * game counts are comparable, `Experience` is an integer (or missing), a
   * strict mode is given, and that mode's winstreak is an integer, missing
   * or `null`.
   */
  predicate Constructible(hypixelData: map<string, Json>, strictMode: Option<string>) {
    var section := BedwarsSection(GetPlayerDict(hypixelData));
    && section.Ok?
    && Comparable(GameCounts(section.value))
    && Get(section.value, "Experience", JInt(0)).JInt?
    && strictMode.Some?
    && var w := Get(section.value, StrictPrefix(strictMode.value) + "winstreak", JInt(0)); w.JNull? || w.JInt?
  }

  /** The source raises nothing exactly when the conditions of `Constructible` hold. */
  lemma ConstructionSucceeds(hypixelData: map<string, Json>, strictMode: Option<string>)
    ensures ConstructionError(hypixelData, strictMode) == None <==> Constructible(hypixelData, strictMode)
  {
  }

  /** Without a strict mode the winstreak is a dictionary and formatting it raises: construction always fails. */
  lemma NonStrictConstructionRaises(hypixelData: map<string, Json>)
    ensures ConstructionError(hypixelData, None).Some?
  {
    var section := BedwarsSection(GetPlayerDict(hypixelData));
    if section.Ok? {
      assert ModeStats(section.value, None, "winstreak", JInt(0)).PerMode?;
    }
  }

  /**
   * A response without a (truthy) player reads as an empty Bedwars section,
   * and construction then succeeds in any strict mode.
   */
  lemma MissingPlayerConstructible(hypixelData: map<string, Json>, mode: string)
    requires !Truthy(Get(hypixelData, "player", JNull))
    ensures BedwarsSection(GetPlayerDict(hypixelData)) == Ok(map[])
    ensures Constructible(hypixelData, Some(mode))
  {
    var empty: map<string, Json> := map[];
    assert GameCounts(empty) == [JInt(0), JInt(0), JInt(0), JInt(0), JInt(0)];
  }

  /**
   * An empty Bedwars section gives every counter 0; the winstreak shows as
   * "0" rather than "API Off"; the most played mode is "N/A"; and the
   * player is at 0 of 500 XP into level 0.
   */
  lemma EmptySectionDefaults(bedwars: map<string, Json>, mode: string, key: string)
    requires bedwars == map[]
    ensures ModeStats(bedwars, Some(mode), key, JInt(0)) == Single(JInt(0))
    ensures WinstreakText(ModeStats(bedwars, Some(mode), "winstreak", JInt(0))) == Ok("0")
    ensures GetMostPlayed(bedwars) == Ok("N/A")
    ensures Get(bedwars, "Experience", JInt(0)) == JInt(0)
    ensures GetProgress(bedwars) == Ok(ProgressDisplay("0", "500", 0))
  {
    assert WinstreakText(Single(JInt(0))) == Ok("0") by {
      GroupedZeroAndTarget();
    }
    assert GetMostPlayed(bedwars) == Ok("N/A") by {
      MostPlayedNotApplicable(bedwars);
    }
  }

  /** Each step of a constructible object succeeds. */
  lemma ConstructibleSteps(hypixelData: map<string, Json>, strictMode: Option<string>)
    requires Constructible(hypixelData, strictMode)
    ensures BedwarsSection(GetPlayerDict(hypixelData)).Ok?
    ensures var bedwars := BedwarsSection(GetPlayerDict(hypixelData)).value;
      && GetMostPlayed(bedwars).Ok?
      && Get(bedwars, "Experience", JInt(0)).JInt?
      && GetProgress(bedwars).Ok?
      && WinstreakText(ModeStats(bedwars, strictMode, "winstreak", JInt(0))).Ok?
  {
  }

  /**
   * The Bedwars statistics of one player. The source object is never changed
   * after its constructor has run, so it is modelled as a record.
   */
  datatype BedwarsStats = BedwarsStats(
    strictMode: Option<string>,
    hypixelData: Json,
    bedwarsData: map<string, Json>,
    wins: ModeStat,
    losses: ModeStat,
    finalKills: ModeStat,
    finalDeaths: ModeStat,
    bedsBroken: ModeStat,
    bedsLost: ModeStat,
    kills: ModeStat,
    deaths: ModeStat,
    gamesPlayed: ModeStat,
    mostPlayed: string,
    experience: int,
    progress: ProgressDisplay,
    level: real,
    itemsPurchased: ModeStat,
    toolsPurchased: ModeStat,
    resourcesCollected: ModeStat,
    ironCollected: ModeStat,
    goldCollected: ModeStat,
    diamondsCollected: ModeStat,
    emeraldsCollected: ModeStat,
    winstreak: ModeStat,
    winstreakStr: string)
  {
    /**
     * What holds of every constructed object: the level is the curve's level
     * for the experience, the progress is what `get_progress` shows for that level,
     * the winstreak reads "API Off" exactly when it is `null`, and the most
     * played mode is "N/A" or one of the five modes.
     */
    predicate Valid() {
      && strictMode.Some?
      && level == Level(experience)
      && progress == Display(ProgressFigures(level))
      && (winstreakStr == "API Off" <==> winstreak == Single(JNull))
      && (mostPlayed == "N/A" || exists k :: 0 <= k < |MOST_PLAYED_MODES| && mostPlayed == MOST_PLAYED_MODES[k].0)
    }
  }

  /**
   * `BedwarsStats(hypixel_data, strict_mode)`: every counter is
   * `_get_mode_stats` of its key with default 0, assigned one after the
   * other. It is only called where the source does not raise
   * (`ConstructionSucceeds`).
   */
  method NewBedwarsStats(hypixelData: map<string, Json>, strictMode: Option<string>) returns (stats: BedwarsStats)
    requires Constructible(hypixelData, strictMode)
    ensures stats.Valid()
    ensures stats.strictMode == strictMode
    ensures stats.hypixelData == GetPlayerDict(hypixelData)
    ensures stats.bedwarsData == BedwarsSection(GetPlayerDict(hypixelData)).value
    ensures stats.wins == ModeStats(stats.bedwarsData, strictMode, "wins_bedwars", JInt(0))
    ensures stats.losses == ModeStats(stats.bedwarsData, strictMode, "losses_bedwars", JInt(0))
    ensures stats.finalKills == ModeStats(stats.bedwarsData, strictMode, "final_kills_bedwars", JInt(0))
    ensures stats.finalDeaths == ModeStats(stats.bedwarsData, strictMode, "final_deaths_bedwars", JInt(0))
    ensures stats.bedsBroken == ModeStats(stats.bedwarsData, strictMode, "beds_broken_bedwars", JInt(0))
    ensures stats.bedsLost == ModeStats(stats.bedwarsData, strictMode, "beds_lost_bedwars", JInt(0))
    ensures stats.kills == ModeStats(stats.bedwarsData, strictMode, "kills_bedwars", JInt(0))
    ensures stats.deaths == ModeStats(stats.bedwarsData, strictMode, "deaths_bedwars", JInt(0))
    ensures stats.gamesPlayed == ModeStats(stats.bedwarsData, strictMode, "games_played_bedwars", JInt(0))
    ensures Ok(stats.mostPlayed) == GetMostPlayed(stats.bedwarsData)
    ensures JInt(stats.experience) == Get(stats.bedwarsData, "Experience", JInt(0))
    ensures stats.level == Level(stats.experience)
    ensures Ok(stats.progress) == GetProgress(stats.bedwarsData)
    ensures stats.itemsPurchased == ModeStats(stats.bedwarsData, strictMode, "items_purchased_bedwars", JInt(0))
    ensures stats.toolsPurchased == ModeStats(stats.bedwarsData, strictMode, "permanent_items_purchased_bedwars", JInt(0))
    ensures stats.resourcesCollected == ModeStats(stats.bedwarsData, strictMode, "resources_collected_bedwars", JInt(0))
    ensures stats.ironCollected == ModeStats(stats.bedwarsData, strictMode, "iron_resources_collected_bedwars", JInt(0))
    ensures stats.goldCollected == ModeStats(stats.bedwarsData, strictMode, "gold_resources_collected_bedwars", JInt(0))
    ensures stats.diamondsCollected == ModeStats(stats.bedwarsData, strictMode, "diamond_resources_collected_bedwars", JInt(0))
    ensures stats.emeraldsCollected == ModeStats(stats.bedwarsData, strictMode, "emerald_resources_collected_bedwars", JInt(0))
    ensures stats.winstreak == ModeStats(stats.bedwarsData, strictMode, "winstreak", JInt(0))
    ensures Ok(stats.winstreakStr) == WinstreakText(stats.winstreak)
  {
    ConstructibleSteps(hypixelData, strictMode);
    var player := GetPlayerDict(hypixelData);
    var bedwars := BedwarsSection(player).value;

    var wins := GetModeStats(bedwars, strictMode, "wins_bedwars", JInt(0));
    var losses := GetModeStats(bedwars, strictMode, "losses_bedwars", JInt(0));
    var finalKills := GetModeStats(bedwars, strictMode, "final_kills_bedwars", JInt(0));
    var finalDeaths := GetModeStats(bedwars, strictMode, "final_deaths_bedwars", JInt(0));
    var bedsBroken := GetModeStats(bedwars, strictMode, "beds_broken_bedwars", JInt(0));
    var bedsLost := GetModeStats(bedwars, strictMode, "beds_lost_bedwars", JInt(0));
    var kills := GetModeStats(bedwars, strictMode, "kills_bedwars", JInt(0));
    var deaths := GetModeStats(bedwars, strictMode, "deaths_bedwars", JInt(0));

    var gamesPlayed := GetModeStats(bedwars, strictMode, "games_played_bedwars", JInt(0));
    var mostPlayed := GetMostPlayed(bedwars).value;

    var experience := Get(bedwars, "Experience", JInt(0)).n;
    var level := GetLevel(experience);
    var progress := GetProgress(bedwars).value;

    var itemsPurchased := GetModeStats(bedwars, strictMode, "items_purchased_bedwars", JInt(0));
    var toolsPurchased := GetModeStats(bedwars, strictMode, "permanent_items_purchased_bedwars", JInt(0));

    var resourcesCollected := GetModeStats(bedwars, strictMode, "resources_collected_bedwars", JInt(0));
    var ironCollected := GetModeStats(bedwars, strictMode, "iron_resources_collected_bedwars", JInt(0));
    var goldCollected := GetModeStats(bedwars, strictMode, "gold_resources_collected_bedwars", JInt(0));
    var diamondsCollected := GetModeStats(bedwars, strictMode, "diamond_resources_collected_bedwars", JInt(0));
    var emeraldsCollected := GetModeStats(bedwars, strictMode, "emerald_resources_collected_bedwars", JInt(0));

    var winstreak := GetModeStats(bedwars, strictMode, "winstreak", JInt(0));
    var winstreakStr := WinstreakText(winstreak).value;

    stats := BedwarsStats(strictMode, player, bedwars,
      wins, losses, finalKills, finalDeaths, bedsBroken, bedsLost, kills, deaths,
      gamesPlayed, mostPlayed, experience, progress, level,
      itemsPurchased, toolsPurchased,
      resourcesCollected, ironCollected, goldCollected, diamondsCollected, emeraldsCollected,
      winstreak, winstreakStr);
  }
}
