/**
 * The mode table (`bedwars_modes_map`), `get_mode`, and the per-mode lookup
 * `BedwarsStats._get_mode_stats` that every counter of the statistics uses.
 */
module Modes {
  import opened PyValues
  import opened PyText

  /** `bedwars_modes_map`: each mode's name and the prefix of its keys, in insertion order. */
  const MODES: seq<(string, string)> := [
    ("overall", ""),
    ("solos", "eight_one_"),
    ("doubles", "eight_two_"),
    ("threes", "four_three_"),
    ("fours", "four_four_"),
    ("4v4", "two_four_")
  ]

  predicate IsModeName(name: string) {
    exists j :: 0 <= j < |MODES| && MODES[j].0 == name
  }

  /** No two entries of the table share a name, so a lookup by name is unambiguous. */
  lemma ModeNamesDistinct()
    ensures forall i, j :: 0 <= i < |MODES| && 0 <= j < |MODES| && MODES[i].0 == MODES[j].0 ==> i == j
  {
    forall i, j | 0 <= i < |MODES| && 0 <= j < |MODES| && MODES[i].0 == MODES[j].0
      ensures i == j
    {
      InitialOf(i);
      InitialOf(j);
      assert MODES[i].0[0] == MODES[j].0[0];
    }
  }

  /** The mode names begin with six different characters. */
  lemma InitialOf(j: int)
    requires 0 <= j < |MODES|
    ensures |MODES[j].0| > 0 && MODES[j].0[0] == "osdtf4"[j]
  {
  }

  /** `bedwars_modes_map.get(name)`: the prefix stored under `name`, searching entries `from` on. */
  function FindPrefix(name: string, from: nat): (p: Option<string>)
    requires from <= |MODES|
    ensures p.Some? <==> exists j :: from <= j < |MODES| && MODES[j].0 == name
    ensures forall j :: from <= j < |MODES| && MODES[j].0 == name ==> p == Some(MODES[j].1)
    decreases |MODES| - from
  {
    ModeNamesDistinct();
    if from == |MODES| then None
    else if MODES[from].0 == name then Some(MODES[from].1)
    else FindPrefix(name, from + 1)
  }

  /**
   * `get_mode`: the prefix of the mode named `mode`, whatever its letter
   * case, and `""` (the overall prefix) for a name that is not in the table.
   */
  function GetMode(mode: string): (prefix: string)
    ensures forall j :: 0 <= j < |MODES| && MODES[j].0 == Lower(mode) ==> prefix == MODES[j].1
    ensures !IsModeName(Lower(mode)) ==> prefix == ""
  {
    match FindPrefix(Lower(mode), 0)
    case Some(p) => p
    case None => ""
  }

  /**
   * The prefix `_get_mode_stats` uses in strict mode. It looks the mode up
   * without a default, so an unknown mode formats `None` into the key.
   */
  function StrictPrefix(mode: string): (prefix: string)
    ensures IsModeName(Lower(mode)) ==> prefix == GetMode(mode)
    ensures !IsModeName(Lower(mode)) ==> prefix == "None"
  {
    match FindPrefix(Lower(mode), 0)
    case Some(p) => p
    case None => "None"
  }

  /** `s.lower()` is idempotent. */
  lemma LowerIdempotent(s: string)
    ensures Lower(Lower(s)) == Lower(s)
  {
    var l := Lower(s);
    forall i | 0 <= i < |s| ensures Lower(l)[i] == l[i] {
      assert l[i] == LowerChar(s[i]);
    }
  }

  /** `get_mode` ignores letter case: a mode name and its lower-case form give the same prefix. */
  lemma GetModeCaseInsensitive(mode: string)
    ensures GetMode(mode) == GetMode(Lower(mode))
    ensures StrictPrefix(mode) == StrictPrefix(Lower(mode))
  {
    LowerIdempotent(mode);
  }

  /** "Solos" in any letter case is `eight_one_`. */
  // The literal input comes in through `requires`, so the verifier unfolds the definitions on it only as far as the proof asks.
  lemma GetModeSolosExample(mode: string)
    requires mode == "Solos" || mode == "SOLOS"
    ensures GetMode(mode) == "eight_one_"
  {
    assert Lower(mode) == MODES[1].0;
  }

  /** "4V4" is `two_four_`, the last entry of the table. */
  // The literal input comes in through `requires`, so the verifier unfolds the definitions on it only as far as the proof asks.
  lemma GetModeLastExample(mode: string)
    requires mode == "4V4"
    ensures GetMode(mode) == "two_four_"
  {
    assert Lower(mode) == MODES[5].0;
  }

  /** "Overall" has the empty prefix, from the first entry of the table. */
  // The literal input comes in through `requires`, so the verifier unfolds the definitions on it only as far as the proof asks.
  lemma GetModeFirstExample(mode: string)
    requires mode == "Overall"
    ensures GetMode(mode) == ""
  {
    assert Lower(mode) == MODES[0].0;
  }

  /** A name outside the table, such as "duels", gets the overall prefix, or `None` in strict mode. */
  // The literal input comes in through `requires`, so the verifier unfolds the definitions on it only as far as the proof asks.
  lemma UnknownModeExample(mode: string)
    requires mode == "duels"
    ensures GetMode(mode) == "" && StrictPrefix(mode) == "None"
  {
    LowerOfLowerCase(mode);
    forall j | 0 <= j < |MODES| ensures MODES[j].0 != mode {
      InitialOf(j);
      if j == 2 {
        assert |MODES[j].0| != |mode|;
      } else {
        assert MODES[j].0[0] != mode[0];
      }
    }
  }

  /** Text without capital letters is its own lower-case form. */
  lemma LowerOfLowerCase(s: string)
    requires forall i :: 0 <= i < |s| ==> !IsUpperAscii(s[i])
    ensures Lower(s) == s
  {
  }

  /** What `_get_mode_stats` returns: a dictionary keyed by mode name, or one value in strict mode. */
  datatype ModeStat = PerMode(stats: map<string, Json>) | Single(value: Json)

  /** The dictionary the non-strict loop has built after visiting the first `n` entries of the table. */
  function TableMap(bedwars: map<string, Json>, key: string, default: Json, n: nat): map<string, Json>
    requires n <= |MODES|
  {
    if n == 0 then map[]
    else TableMap(bedwars, key, default, n - 1)[MODES[n - 1].0 := Get(bedwars, MODES[n - 1].1 + key, default)]
  }

  /** After `n` entries, the dictionary holds exactly their names, each with its own value. */
  lemma {:induction false} TableMapContents(bedwars: map<string, Json>, key: string, default: Json, n: nat)
    requires n <= |MODES|
    ensures TableMap(bedwars, key, default, n).Keys == set j | 0 <= j < n :: MODES[j].0
    ensures forall j :: 0 <= j < n ==> TableMap(bedwars, key, default, n)[MODES[j].0] == Get(bedwars, MODES[j].1 + key, default)
  {
    if n > 0 {
      TableMapContents(bedwars, key, default, n - 1);
      TableMapStep(TableMap(bedwars, key, default, n - 1), bedwars, key, default, n);
    }
  }

  /** Storing entry `n - 1` into the dictionary built from the entries before it. */
  lemma TableMapStep(m: map<string, Json>, bedwars: map<string, Json>, key: string, default: Json, n: nat)
    requires 0 < n <= |MODES|
    requires m.Keys == set j | 0 <= j < n - 1 :: MODES[j].0
    requires forall j :: 0 <= j < n - 1 ==> m[MODES[j].0] == Get(bedwars, MODES[j].1 + key, default)
    ensures m[MODES[n - 1].0 := Get(bedwars, MODES[n - 1].1 + key, default)].Keys == set j | 0 <= j < n :: MODES[j].0
    ensures forall j :: 0 <= j < n ==>
      m[MODES[n - 1].0 := Get(bedwars, MODES[n - 1].1 + key, default)][MODES[j].0] == Get(bedwars, MODES[j].1 + key, default)
  {
    var name := MODES[n - 1].0;
    var m' := m[name := Get(bedwars, MODES[n - 1].1 + key, default)];
    assert m'.Keys == m.Keys + {name};
    forall j | 0 <= j < n - 1 ensures MODES[j].0 != name {
      InitialOf(j);
      InitialOf(n - 1);
    }
  }

  /** The names in the table are the six mode names. */
  lemma TableNames()
    ensures (set j | 0 <= j < |MODES| :: MODES[j].0) == {"overall", "solos", "doubles", "threes", "fours", "4v4"}
  {
    var names := set j | 0 <= j < |MODES| :: MODES[j].0;
    assert MODES[0].0 in names && MODES[1].0 in names && MODES[2].0 in names;
    assert MODES[3].0 in names && MODES[4].0 in names && MODES[5].0 in names;
  }

  /**
   * What `_get_mode_stats(key, default)` returns for the Bedwars section
   * `bedwars`: without a strict mode, the dictionary the loop over the mode
   * table builds; with one, the single value under that mode's prefix.
   */
  function ModeStats(bedwars: map<string, Json>, strictMode: Option<string>, key: string, default: Json): (r: ModeStat)
    ensures r.PerMode? <==> strictMode.None?
  {
    if strictMode.None? then PerMode(TableMap(bedwars, key, default, |MODES|))
    else Single(Get(bedwars, StrictPrefix(strictMode.value) + key, default))
  }

  /**
   * Without a strict mode the dictionary has exactly the six mode names as
   * keys, each holding the value under its prefix followed by `key` (or
   * `default`), and the overall entry reads `key` itself.
   */
  lemma ModeStatsPerMode(bedwars: map<string, Json>, key: string, default: Json)
    ensures ModeStats(bedwars, None, key, default).stats.Keys == {"overall", "solos", "doubles", "threes", "fours", "4v4"}
    ensures forall j :: 0 <= j < |MODES| ==>
      ModeStats(bedwars, None, key, default).stats[MODES[j].0] == Get(bedwars, MODES[j].1 + key, default)
    ensures ModeStats(bedwars, None, key, default).stats["overall"] == Get(bedwars, key, default)
  {
    TableMapContents(bedwars, key, default, |MODES|);
    TableNames();
    assert MODES[0] == ("overall", "") && "" + key == key;
  }

  /** With a strict mode, the single value under that mode's prefix (`None` for an unknown mode) and `key`. */
  lemma ModeStatsStrict(bedwars: map<string, Json>, mode: string, key: string, default: Json)
    ensures ModeStats(bedwars, Some(mode), key, default) == Single(Get(bedwars, StrictPrefix(mode) + key, default))
    ensures IsModeName(Lower(mode)) ==> ModeStats(bedwars, Some(mode), key, default) == Single(Get(bedwars, GetMode(mode) + key, default))
  {
  }

  /**
   * `_get_mode_stats(key, default)`: without a strict mode it loops over the
   * mode table, storing each mode's value in a new dictionary.
   */
  method GetModeStats(bedwars: map<string, Json>, strictMode: Option<string>, key: string, default: Json)
    returns (r: ModeStat)
    ensures r == ModeStats(bedwars, strictMode, key, default)
  {
    if strictMode.None? {
      var modeStats: map<string, Json> := map[];
      for i := 0 to |MODES|
        invariant modeStats == TableMap(bedwars, key, default, i)
      {
        var (mode, prefix) := MODES[i];
        modeStats := modeStats[mode := Get(bedwars, prefix + key, default)];
      }
      return PerMode(modeStats);
    }
    var prefix := StrictPrefix(strictMode.value);
    return Single(Get(bedwars, prefix + key, default));
  }
}
