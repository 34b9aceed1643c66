/**
 * Reading a player out of the Hypixel response: `get_player_dict`,
 * `get_most_played` and `get_rank_info`.
 */
module Players {
  import opened PyValues
  import opened PyText

  /**
   * `get_player_dict`: the `player` entry of the response when it is truthy,
   * otherwise an empty object. The result is never a falsy value other than `{}`.
   */
  function GetPlayerDict(hypixelData: map<string, Json>): (player: Json)
    ensures player == JObj(map[]) || Truthy(player)
    ensures Truthy(player) ==> "player" in hypixelData && player == hypixelData["player"]
    ensures "player" in hypixelData && Truthy(hypixelData["player"]) ==> player == hypixelData["player"]
  {
    var p := Get(hypixelData, "player", JNull);
    if Truthy(p) then p else JObj(map[])
  }

  /** A response with no `player`, or a `null` one, reads as the empty object. */
  lemma MissingPlayerIsEmpty(hypixelData: map<string, Json>)
    requires "player" !in hypixelData || hypixelData["player"] == JNull
    ensures GetPlayerDict(hypixelData) == JObj(map[])
  {
  }

  // ---- get_most_played ----

  /** The five modes `get_most_played` compares, in its order, with the key of each game count. */
  const MOST_PLAYED_MODES: seq<(string, string)> := [
    ("Solos", "eight_one_games_played_bedwars"),
    ("Doubles", "eight_two_games_played_bedwars"),
    ("Threes", "four_three_games_played_bedwars"),
    ("Fours", "four_four_games_played_bedwars"),
    ("4v4", "two_four_games_played_bedwars")
  ]

  /** The values of `modes_dict`: each mode's game count, 0 when missing. */
  function GameCounts(bedwars: map<string, Json>): (counts: seq<Json>)
    ensures |counts| == |MOST_PLAYED_MODES|
  {
    seq(|MOST_PLAYED_MODES|, i requires 0 <= i < |MOST_PLAYED_MODES| => Get(bedwars, MOST_PLAYED_MODES[i].1, JInt(0)))
  }

  predicate AllInts(xs: seq<Json>) { forall i :: 0 <= i < |xs| ==> xs[i].JInt? }

  predicate AllStrs(xs: seq<Json>) { forall i :: 0 <= i < |xs| ==> xs[i].JStr? }

  /** Values `max` can compare with each other: all integers, or all strings. */
  predicate Comparable(xs: seq<Json>) { AllInts(xs) || AllStrs(xs) }

  /** Python's `a < b` for two integers or two strings. */
  predicate PyLess(a: Json, b: Json) {
    match (a, b)
    case (JInt(x), JInt(y)) => x < y
    case (JStr(s), JStr(t)) => StrLess(s, t)
    case _ => false
  }

  /** `k` is where `max` stops: no value exceeds `xs[k]`, and every earlier one is smaller. */
  predicate IsFirstMax(xs: seq<Json>, k: int) {
    && 0 <= k < |xs|
    && (forall i :: 0 <= i < |xs| ==> !PyLess(xs[k], xs[i]))
    && (forall i :: 0 <= i < k ==> PyLess(xs[i], xs[k]))
  }

  /** Two values of one kind compare as a strict total order. */
  lemma PyLessOrder(a: Json, b: Json, c: Json)
    requires (a.JInt? && b.JInt? && c.JInt?) || (a.JStr? && b.JStr? && c.JStr?)
    ensures !(PyLess(a, b) && PyLess(b, a))
    ensures a == b || PyLess(a, b) || PyLess(b, a)
    ensures PyLess(a, b) && PyLess(b, c) ==> PyLess(a, c)
  {
    if a.JStr? {
      StrLessTotal(a.s, b.s);
      if StrLess(a.s, b.s) && StrLess(b.s, c.s) {
        StrLessTransitive(a.s, b.s, c.s);
      }
    }
  }

  /** Extending the scan of `max` by one value keeps the first maximum, or moves it to a larger last value. */
  lemma FirstMaxExtend(xs: seq<Json>, k: int)
    requires |xs| > 1 && Comparable(xs)
    requires IsFirstMax(xs[..|xs| - 1], k)
    ensures IsFirstMax(xs, if PyLess(xs[k], xs[|xs| - 1]) then |xs| - 1 else k)
  {
    var last := |xs| - 1;
    var prefix := xs[..last];
    assert forall i :: 0 <= i < last ==> xs[i] == prefix[i];
    if PyLess(xs[k], xs[last]) {
      forall i | 0 <= i < last
        ensures PyLess(xs[i], xs[last]) && !PyLess(xs[last], xs[i])
      {
        PyLessOrder(xs[i], xs[k], xs[last]);
        PyLessOrder(xs[last], xs[i], xs[k]);
      }
      PyLessOrder(xs[last], xs[last], xs[last]);
    } else {
      PyLessOrder(xs[k], xs[k], xs[k]);
    }
  }

  /**
   * `max(xs)` (and `max` with a key on the same values): scan left to right,
   * moving on only to a strictly larger value, so the first maximum wins.
   */
  function MaxIndex(xs: seq<Json>): (k: int)
    requires |xs| > 0 && Comparable(xs)
    ensures IsFirstMax(xs, k)
  {
    if |xs| == 1 then
      PyLessOrder(xs[0], xs[0], xs[0]);
      0
    else
      var k := MaxIndex(xs[..|xs| - 1]);
      FirstMaxExtend(xs, k);
      if PyLess(xs[k], xs[|xs| - 1]) then |xs| - 1 else k
  }

  /** Only one position can be the first maximum: the stable argmax is well defined. */
  lemma FirstMaxUnique(xs: seq<Json>, j: int, k: int)
    requires Comparable(xs) && IsFirstMax(xs, j) && IsFirstMax(xs, k)
    ensures j == k
  {
    assert !PyLess(xs[j], xs[k]) && !PyLess(xs[k], xs[j]);
  }

  /** The integer counts have maximum 0. */
  predicate MaxIsZero(xs: seq<Json>)
    requires AllInts(xs)
  {
    (forall i :: 0 <= i < |xs| ==> xs[i].n <= 0) && (exists i :: 0 <= i < |xs| && xs[i].n == 0)
  }

  /**
   * `get_most_played`: "N/A" when the largest game count is 0, otherwise the
   * first mode with the largest count. Counts `max` cannot compare (a
   * `null`, an object, strings mixed with numbers) raise `TypeError`.
   */
  function GetMostPlayed(bedwars: map<string, Json>): (r: Result<string>)
    ensures r.Raises? <==> !Comparable(GameCounts(bedwars))
    ensures r.Raises? ==> r.error == TypeError
    ensures r == Ok("N/A") <==> AllInts(GameCounts(bedwars)) && MaxIsZero(GameCounts(bedwars))
    ensures r.Ok? && r.value != "N/A" ==>
      exists k :: IsFirstMax(GameCounts(bedwars), k) && r.value == MOST_PLAYED_MODES[k].0
  {
    var counts := GameCounts(bedwars);
    if !Comparable(counts) then Raises(TypeError)
    else
      var k := MaxIndex(counts);
      if counts[k] == JInt(0) then
        Ok("N/A")
      else
        assert AllInts(counts) ==> forall i :: 0 <= i < |counts| ==> counts[i].n <= counts[k].n;
        Ok(MOST_PLAYED_MODES[k].0)
  }

  /** With non-negative counts (missing ones count as 0), "N/A" means no game was played in any mode. */
  lemma MostPlayedNotApplicable(bedwars: map<string, Json>)
    requires AllInts(GameCounts(bedwars))
    requires forall i :: 0 <= i < |MOST_PLAYED_MODES| ==> GameCounts(bedwars)[i].n >= 0
    ensures GetMostPlayed(bedwars) == Ok("N/A") <==> forall i :: 0 <= i < |MOST_PLAYED_MODES| ==> GameCounts(bedwars)[i] == JInt(0)
  {
    var counts := GameCounts(bedwars);
    if forall i :: 0 <= i < |counts| ==> counts[i] == JInt(0) {
      assert counts[0].n == 0;
    }
  }

  /** A count that is the first maximum of the counts decides the mode. */
  lemma MostPlayedAt(bedwars: map<string, Json>, k: int)
    requires AllInts(GameCounts(bedwars)) && IsFirstMax(GameCounts(bedwars), k)
    requires GameCounts(bedwars)[k] != JInt(0)
    ensures GetMostPlayed(bedwars) == Ok(MOST_PLAYED_MODES[k].0)
  {
    var counts := GameCounts(bedwars);
    FirstMaxUnique(counts, k, MaxIndex(counts));
  }

  /** Five Solos games and nothing else make "Solos". */
  // The literal input comes in through `requires`, so the verifier unfolds the definitions on it only as far as the proof asks.
  lemma MostPlayedSolosExample(bedwars: map<string, Json>)
    requires bedwars == map["eight_one_games_played_bedwars" := JInt(5)]
    ensures GetMostPlayed(bedwars) == Ok("Solos")
  {
    var counts := GameCounts(bedwars);
    assert counts == [JInt(5), JInt(0), JInt(0), JInt(0), JInt(0)];
    MostPlayedAt(bedwars, 0);
  }

  /** A 3-3 tie of Solos and Doubles goes to Solos, the earlier mode. */
  // The literal input comes in through `requires`, so the verifier unfolds the definitions on it only as far as the proof asks.
  lemma MostPlayedTieExample(bedwars: map<string, Json>)
    requires bedwars == map["eight_one_games_played_bedwars" := JInt(3), "eight_two_games_played_bedwars" := JInt(3)]
    ensures GetMostPlayed(bedwars) == Ok("Solos")
  {
    var counts := GameCounts(bedwars);
    assert counts == [JInt(3), JInt(3), JInt(0), JInt(0), JInt(0)];
    MostPlayedAt(bedwars, 0);
  }

  /** A 3-3 tie of Doubles and Fours goes to Doubles. */
  // The literal input comes in through `requires`, so the verifier unfolds the definitions on it only as far as the proof asks.
  lemma MostPlayedLaterTieExample(bedwars: map<string, Json>)
    requires bedwars == map["eight_two_games_played_bedwars" := JInt(3), "four_four_games_played_bedwars" := JInt(3)]
    ensures GetMostPlayed(bedwars) == Ok("Doubles")
  {
    var counts := GameCounts(bedwars);
    assert counts == [JInt(0), JInt(3), JInt(0), JInt(3), JInt(0)];
    MostPlayedAt(bedwars, 1);
  }

  // ---- get_rank_info ----

  /** The rank fields `get_rank_info` returns. */
  datatype RankInfo = RankInfo(
    rank: Json,
    packageRank: Json,
    newPackageRank: Json,
    monthlyPackageRank: Json,
    rankPlusColor: Json)

  /** Whether the player's `displayname` is the one name whose rank is overridden. */
  predicate IsTechnoblade(player: map<string, Json>) {
    Get(player, "displayname", JNull) == JStr("Technoblade")
  }

  /**
   * `get_rank_info`: the rank fields of the player object, each `"NONE"`
   * when missing (the plus colour `None`). Technoblade's rank and plus colour
   * are always "TECHNO" and "AQUA"; the package ranks are never overridden.
   */
  function GetRankInfo(player: map<string, Json>): (info: RankInfo)
    ensures IsTechnoblade(player) ==> info.rank == JStr("TECHNO") && info.rankPlusColor == JStr("AQUA")
    ensures !IsTechnoblade(player) ==> info.rank == Get(player, "rank", JStr("NONE"))
    ensures !IsTechnoblade(player) ==> info.rankPlusColor == Get(player, "rankPlusColor", JNull)
    ensures info.packageRank == Get(player, "packageRank", JStr("NONE"))
    ensures info.newPackageRank == Get(player, "newPackageRank", JStr("NONE"))
    ensures info.monthlyPackageRank == Get(player, "monthlyPackageRank", JStr("NONE"))
  {
    var techno := IsTechnoblade(player);
    RankInfo(
      if techno then JStr("TECHNO") else Get(player, "rank", JStr("NONE")),
      Get(player, "packageRank", JStr("NONE")),
      Get(player, "newPackageRank", JStr("NONE")),
      Get(player, "monthlyPackageRank", JStr("NONE")),
      if techno then JStr("AQUA") else Get(player, "rankPlusColor", JNull))
  }

  /**
   * The override ignores what is stored: two Technoblade objects with the
   * same package ranks get the same rank info, whatever their `rank` and
   * `rankPlusColor` say.
   */
  lemma TechnobladeOverrideIgnoresStoredRank(p: map<string, Json>, q: map<string, Json>)
    requires IsTechnoblade(p) && IsTechnoblade(q)
    requires forall key :: key in {"packageRank", "newPackageRank", "monthlyPackageRank"} ==>
      Get(p, key, JStr("NONE")) == Get(q, key, JStr("NONE"))
    ensures GetRankInfo(p) == GetRankInfo(q)
  {
    assert "packageRank" in {"packageRank", "newPackageRank", "monthlyPackageRank"};
    assert "newPackageRank" in {"packageRank", "newPackageRank", "monthlyPackageRank"};
    assert "monthlyPackageRank" in {"packageRank", "newPackageRank", "monthlyPackageRank"};
  }

  /** A player object with no rank data at all has every rank "NONE" and no plus colour. */
  lemma RankInfoDefaults()
    ensures GetRankInfo(map[]) == RankInfo(JStr("NONE"), JStr("NONE"), JStr("NONE"), JStr("NONE"), JNull)
    ensures GetRankInfo(map["displayname" := JStr("Technoblade")]) == RankInfo(JStr("TECHNO"), JStr("NONE"), JStr("NONE"), JStr("NONE"), JStr("AQUA"))
  {
  }
}
