# Bedwars statistics calculations, modelled in Dafny

This project models `bot/statalib/calctools.py`, the statistics library of a Discord bot that shows Hypixel Bedwars statistics. That file holds the calculations behind the bot's Hypixel Bedwars statistics cards:

- `get_level` turns Bedwars experience into a fractional level. Every 487000 XP is a prestige of 100 levels. The first four levels of a prestige cost 500, 1000, 2000 and 3500 XP, and every later level costs 5000 XP.
- `xp_from_level` is its inverse.
- `get_progress` shows how far a player is into the current level: XP done, XP the level costs, and the same share in tenths.
- `add_suffixes` approximates large numbers with suffixes such as M and B.
- `get_mode` maps a mode name to the prefix of its keys in the Hypixel data.
- `get_player_dict`, `get_most_played` and `get_rank_info` read the player object.
- `BedwarsStats` collects every counter of a player, per mode or for one mode.
- `real_title_case` title-cases words that begin with a letter.

The Hypixel JSON is modelled as `Json` values (`PyValues`). A Python exception is a `Raises(error)` result, so the paths that raise are modelled rather than excluded by a precondition. Python floats are modelled as exact reals, so the exceptions that only floats raise are left out: the `OverflowError` of `get_level` and of `add_suffixes` for astronomically large numbers, and the exponent notation `get_progress` meets from level 10^16 on (about 4.87·10^19 XP). Each is listed under "Left out". `int()` is modelled as rounding toward zero (`Trunc`) and `round()` as rounding half to even (`RoundHalfEven`). `f'{n:,}'` is modelled as text (`PyText.Grouped`), with a proof that it reads back as `n`.

Modules, one per concern of the file:

| module | file | models |
|---|---|---|
| `PyValues` | python_values.dfy | JSON values, exceptions, `dict.get`, truthiness, `int()`, `round()` |
| `PyText` | python_str.dfy | digit strings, `f'{n:,}'`, `str(n / 100)`, `.split(".")[-1]`, string order, `.lower()` |
| `Leveling` | leveling.dfy | `get_level`, `xp_from_level` |
| `Progress` | progress.dfy | `get_progress` |
| `Suffixes` | suffixes.dfy | `suffixes`, `add_suffixes` |
| `Modes` | modes.dfy | `bedwars_modes_map`, `get_mode`, `BedwarsStats._get_mode_stats` |
| `Players` | players.dfy | `get_player_dict`, `get_most_played`, `get_rank_info` |
| `Stats` | bedwars_stats.dfy | `BedwarsStats.__init__` |
| `TitleCase` | title_case.dfy | `real_title_case` |

`get_level`, `add_suffixes` and `_get_mode_stats` are written as loops in the source. They are methods with loops here too, each proved equal to a specification function or predicate. The properties are proved about those functions.

## Model

| member | source | states |
|---|---|---|
| Leveling.GetLevel | bot/statalib/calctools.py:75-88 | the loop over `xp_map` returns the level of the XP: the prestige times 100 plus the interpolated level inside the prestige |
| Leveling.LevelInPrestigeSplit | bot/statalib/calctools.py:84-88 | XP inside a prestige falls in exactly one whole level `k` below 100; the level is `k` plus the share of that level's cost already earned, so its floor is `k` |
| Leveling.LevelInPrestigeBounds | bot/statalib/calctools.py:84-88 | the level inside a prestige lies in [0, 100) |
| Leveling.LevelAtBreakpoints | bot/statalib/calctools.py:80-88 | 0, 500, 1500, 3500 and 7000 XP are levels 0 to 4 exactly; 487000 XP is level 100 |
| Leveling.LevelPrestigePeriod | bot/statalib/calctools.py:80-81 | 487000 more XP is exactly 100 more levels |
| Leveling.LevelLateStep | bot/statalib/calctools.py:88 | from level 4 of a prestige on, 5000 more XP is exactly one more level |
| Leveling.LevelIncreasing | bot/statalib/calctools.py:75-88 | more XP always means a strictly higher level, across prestiges too |
| Leveling.XpFromLevelRoundTrip | bot/statalib/calctools.py:58-88 | `xp_from_level(get_level(xp)) == xp` for every integer XP |
| Leveling.XpInPrestigeInverse | bot/statalib/calctools.py:67-72 | inside a prestige, the XP of the level of `r` XP is `r` again |
| Leveling.XpFromLevel | bot/statalib/calctools.py:58-72 | a non-negative level needs a non-negative amount of XP |
| Leveling.XpInPrestigeRange | bot/statalib/calctools.py:67-72 | the XP into a prestige is never negative, and it is below 7000 exactly for the first four levels (the `xp_map` branch) |
| Leveling.XpFromWholeLevel | bot/statalib/calctools.py:63-72 | a whole level `n` needs 487000 XP per prestige plus the start of level `n % 100` |
| Leveling.XpFromLevelSplit | bot/statalib/calctools.py:58-72 | `xp_from_level` at `frac` of the way through whole level `n` is the XP that level starts at plus `int(frac * cost)` of the level's cost |
| Leveling.LevelOfXpFromWholeLevel | bot/statalib/calctools.py:58-88 | `get_level(xp_from_level(n)) == n` for every whole level |
| Progress.RemainderDigitValue | bot/statalib/calctools.py:98 | `int(str(n / 100).split(".")[-1])` is 0 when `n % 100 == 0`, `n % 100 / 10` when that is a multiple of 10 (Python drops the trailing zero), else `n % 100` |
| Progress.RemainderDigitExamples | bot/statalib/calctools.py:98 | whole levels 340, 10 and 5 give remainder digits 4, 1 and 5 |
| Progress.FiguresFor | bot/statalib/calctools.py:102-104 | once a target is chosen, the progress lies in [0, target) and the tenths are the fraction of the level, times ten, rounded half to even |
| Progress.ProgressFigures | bot/statalib/calctools.py:96-104 | as written, the target is one of 500, 1000, 2000, 3500, 5000; progress lies in [0, target); tenths lie in [0, 10] |
| Progress.GetProgress | bot/statalib/calctools.py:91-106 | raises `TypeError` exactly when `Experience` is not an integer; otherwise the progress text and the target text have the `f'{n:,}'` layout and read back as the as-written progress and target of the level, and the tenths are the as-written tenths; a missing `Experience` shows ("0", "500", 0) |
| Progress.Display | bot/statalib/calctools.py:106 | `f'{int(progress):,}'` and `f'{int(target):,}'` read back as the two numbers, a non-negative one with a comma exactly every fourth place from the right, and the tenths pass through unchanged |
| Progress.ZeroExperienceDisplay | bot/statalib/calctools.py:91-106 | a player with no experience is shown 0 of 500 and no tenths |
| Progress.XpFromNextLevel | bot/statalib/calctools.py:58-72 | consecutive whole levels are one level cost apart in `xp_from_level`, across prestige boundaries too |
| Progress.CorrectedProgressMeasuresLevel | bot/statalib/calctools.py:96-104 | with the target corrected to the level's cost, at `frac` of the way through whole level `n` the progress is the XP `xp_from_level` counts from `n` to `n + frac`, the target is the XP from `n` to `n + 1`, and the tenths are `frac` rounded |
| Progress.CorrectedProgressMeasuresXp | bot/statalib/calctools.py:58-104 | for any XP, the corrected progress is the XP earned since the current whole level began, and the corrected target is the XP from that level to the next |
| Progress.XpPastWholeLevel | bot/statalib/calctools.py:58-72 | between whole level `n` and `n + frac`, `xp_from_level` counts `int(frac * cost)` of level `n`'s cost |
| Progress.ProgressAsWrittenVersusCorrected | bot/statalib/calctools.py:98-101 | the as-written and corrected figures agree exactly when the whole level modulo 100 is not 10, 20 or 30; the tenths always agree |
| Progress.ProgressAtLevelTenAndAHalf | bot/statalib/calctools.py:98-104 | 39500 XP is level 10.5: as written it shows 500 of 1000, though the level costs 5000 and 2500 of it is done |
| PyText.GroupedRoundTrip | bot/statalib/calctools.py:106 | `f'{n:,}'` has a comma exactly every fourth place from the right and reads back as `n` |
| PyText.HundredthsTail | bot/statalib/calctools.py:98 | the text after the last dot of `str(n / 100)` is the hundredths of `n` without a trailing zero |
| Suffixes.SuffixTableSteps | bot/statalib/calctools.py:110-114 | the table has 19 thresholds, each 1000 times the next, down to one million |
| Suffixes.SuffixTableDescending | bot/statalib/calctools.py:110-114 | the thresholds strictly decrease in table order |
| Suffixes.AddSuffixes | bot/statalib/calctools.py:117-131 | one result per value, in order; a value of at least a million gets the largest threshold it reaches and that threshold's suffix; a smaller value is written `f'{value:,}'` |
| Suffixes.SuffixedQuotientInRange | bot/statalib/calctools.py:124-127 | a suffixed value is at least its threshold and, below the top threshold times 1000, less than 1000 times it, so the exact quotient `value / threshold` lies in [1, 1000); its `.1f` text can still round up to 1,000.0 (999,999,999 shows as "1,000.0M") |
| Suffixes.BelowMillionExample | bot/statalib/calctools.py:128-129 | 999999 is written "999,999" |
| Suffixes.MillionExample | bot/statalib/calctools.py:124-127 | one million gets the suffix "M" |
| Suffixes.BillionsExample | bot/statalib/calctools.py:124-127 | 1500000000 is approximated against 10^9 with suffix "B" |
| Modes.ModeNamesDistinct | bot/statalib/calctools.py:134-141 | no two entries of the mode table share a name |
| Modes.GetMode | bot/statalib/calctools.py:144-151 | the prefix stored under the lower-cased mode name, and "" for a name not in the table |
| Modes.StrictPrefix | bot/statalib/calctools.py:219 | in strict mode a known mode gives `get_mode`'s prefix, and an unknown one the text "None" |
| Modes.GetModeCaseInsensitive | bot/statalib/calctools.py:151 | a mode name and its lower-case form give the same prefix |
| Modes.GetModeSolosExample | bot/statalib/calctools.py:144-151 | "Solos" and "SOLOS" both give "eight_one_" |
| Modes.GetModeLastExample | bot/statalib/calctools.py:144-151 | "4V4" gives "two_four_" |
| Modes.GetModeFirstExample | bot/statalib/calctools.py:144-151 | "Overall" gives "" |
| Modes.UnknownModeExample | bot/statalib/calctools.py:151 | "duels" gives "" from `get_mode` and "None" in strict mode |
| Modes.ModeStatsPerMode | bot/statalib/calctools.py:212-217 | without a strict mode the result has exactly the six mode names as keys, each holding the value under its prefix and the key, or the default |
| Modes.ModeStatsStrict | bot/statalib/calctools.py:219-220 | with a strict mode the result is the single value under that mode's prefix and the key, or the default |
| Modes.GetModeStats | bot/statalib/calctools.py:212-220 | the loop over the mode table builds exactly the per-mode dictionary; a strict mode gives the single value |
| Players.GetPlayerDict | bot/statalib/calctools.py:15-22 | a truthy `player` entry is returned as is; otherwise the result is the empty object |
| Players.MissingPlayerIsEmpty | bot/statalib/calctools.py:20-22 | a missing or null `player` gives the empty object |
| Players.MaxIndex | bot/statalib/calctools.py:39 | `max` picks the first position holding a largest value |
| Players.FirstMaxUnique | bot/statalib/calctools.py:39 | that first largest position is unique |
| Players.GetMostPlayed | bot/statalib/calctools.py:25-39 | raises `TypeError` exactly when the five counts cannot be compared; "N/A" exactly when they are integers with maximum 0; otherwise the first mode with the largest count |
| Players.MostPlayedNotApplicable | bot/statalib/calctools.py:37-38 | with non-negative counts, "N/A" means no game was played in any of the five modes |
| Players.MostPlayedAt | bot/statalib/calctools.py:39 | the mode at the first largest non-zero integer count is the answer |
| Players.MostPlayedSolosExample | bot/statalib/calctools.py:25-39 | five solos games and nothing else give "Solos" |
| Players.MostPlayedTieExample | bot/statalib/calctools.py:39 | a tie between solos and doubles goes to "Solos", the earlier mode |
| Players.MostPlayedLaterTieExample | bot/statalib/calctools.py:39 | a tie between doubles and fours goes to "Doubles" |
| Players.GetRankInfo | bot/statalib/calctools.py:42-55 | each rank field is the stored value or "NONE" (plus colour: `None`); Technoblade's rank is always "TECHNO" and plus colour "AQUA"; package ranks are never overridden |
| Players.TechnobladeOverrideIgnoresStoredRank | bot/statalib/calctools.py:49-53 | two Technoblade objects with the same package ranks give the same rank information, whatever rank they store |
| Players.RankInfoDefaults | bot/statalib/calctools.py:47-55 | an empty player gives "NONE" everywhere and no plus colour; Technoblade alone gives "TECHNO" and "AQUA" |
| Stats.BedwarsSection | bot/statalib/calctools.py:178 | succeeds exactly when the player, its `stats` and its `Bedwars` (missing ones read as empty) are all objects, and then returns the `Bedwars` object; otherwise raises `AttributeError` |
| Stats.WinstreakText | bot/statalib/calctools.py:205-209 | "API Off" exactly for a `None` winstreak; an integer is written with separators and reads back; anything else raises |
| Stats.ConstructionError | bot/statalib/calctools.py:176-209 | the constructor raises `AttributeError` exactly when reading the Bedwars section fails; then `TypeError` for game counts that cannot be compared, then `TypeError` for a non-integer `Experience`; after those, `TypeError` without a strict mode and `ValueError` for a string winstreak in strict mode; `ValueError` only with a strict mode |
| Stats.ConstructionSucceeds | bot/statalib/calctools.py:168-209 | the constructor raises nothing exactly when the Bedwars section is an object, the game counts compare, `Experience` is an integer, a strict mode is given and its winstreak is an integer or `None` |
| Stats.NonStrictConstructionRaises | bot/statalib/calctools.py:205-207 | without a strict mode the constructor always raises: `f'{dict:,}'` is not valid |
| Stats.ConstructibleSteps | bot/statalib/calctools.py:176-209 | when construction succeeds, each step the constructor takes succeeds |
| Stats.MissingPlayerConstructible | bot/statalib/calctools.py:176-178 | a player that is missing or falsy gives an empty Bedwars section, and construction succeeds for any strict mode |
| Stats.EmptySectionDefaults | bot/statalib/calctools.py:180-209 | with an empty Bedwars section every counter is 0, the winstreak text "0", the most played mode "N/A" and `get_progress` gives ("0", "500", 0) |
| Stats.NewBedwarsStats | bot/statalib/calctools.py:168-209 | each counter is `_get_mode_stats` of its key with default 0; most played, experience, level, progress (`get_progress` as written) and winstreak text are as the helpers define them; the record is valid |
| TitleCase.SplitJoin | bot/statalib/calctools.py:10-12 | joining words with single spaces and splitting again gives the same words |
| TitleCase.TitleFromPointwise | bot/statalib/calctools.py:11 | `str.title` upper-cases a letter that follows a non-letter and lower-cases one that follows a letter |
| TitleCase.TitleIfAlpha | bot/statalib/calctools.py:11 | a word not starting with a letter is left unchanged; the length and the first character's kind are kept |
| TitleCase.TitleIfAlphaWord | bot/statalib/calctools.py:11 | title-casing keeps a word a word and is idempotent |
| TitleCase.RealTitleCase | bot/statalib/calctools.py:5-12 | the result splits into exactly the input's words, each title-cased when it begins with a letter and left unchanged otherwise |
| TitleCase.RealTitleCaseIdempotent | bot/statalib/calctools.py:5-12 | applying `real_title_case` twice gives the same text as once |
| TitleCase.RealTitleCaseExample | bot/statalib/calctools.py:5-12 | "4v4 solos" becomes "4v4 Solos" |

## Left out

- `rround` (bot/statalib/calctools.py:154-163) is not modelled. None of the other modelled functions calls it, and it only rounds a float.
- Floating point: levels, `xp_from_level`'s arithmetic and `progress` are exact reals. `str(float)` of the level is taken to show the exact fraction (`Progress.FractionDigits`). Shortest-repr digits and binary rounding are not modelled.
- Suffixes.AddSuffixes: the `.1f` text of a suffixed value is not produced. `Suffixed(value, threshold, suffix)` stands for `f"{value/threshold:,.1f}{suffix}"`. That text rounds to one decimal, so it can show 1,000.0 even though the exact quotient is below 1000 (999,999,999 shows as "1,000.0M").
- Suffixes.AddSuffixes: does not model the `OverflowError` of `value/num` (bot/statalib/calctools.py:126) for values of about 1.8·10^368 or more, whose quotient by 10^60 is beyond the largest float. The model divides exactly and returns `Suffixed` there.
- Leveling.GetLevel: does not model the `OverflowError` for XP of magnitude about 8.8·10^311 or more. There the int `100 * (xp // 487000)` is added to a float (bot/statalib/calctools.py:87-88) and cannot be converted. With exact reals, `Leveling.GetLevel`, `Leveling.Level` and `Progress.GetProgress` return a level there.
- Stats.NewBedwarsStats: `BedwarsStats` is a record built by a method, not a class with fields assigned in place. Nothing in the source updates an object after the constructor returns, so there is no later state to model.
- Stats.NewBedwarsStats: it requires `Constructible`, because the constructor raises in every other case (`Stats.ConstructionSucceeds`). That includes every call without a strict mode (`Stats.NonStrictConstructionRaises`).
- Progress.ProgressFigures: its bounds `0 <= progress < target` and `0 <= outOfTen <= 10` hold for the exact-real reading of the level only. From level 10^16 on (about 4.87·10^19 XP), `str(bedwars_level)` (bot/statalib/calctools.py:102) is in exponent notation, such as "1e+16", so `float('.' + ...)` reads "1e+16" as 10^15 rather than a fraction. At level 10^16 the source then returns progress "500,000,000,000,000,000" against target "500" and tenths 10^16: the progress is past the target and the tenths exceed 10.
- Progress.GetProgress: does not model the `ValueError` for whole levels of 10^18 or more (XP beyond about 4.87·10^21). There `str(int(level) / 100)` switches to exponent notation, and `int()` of the text after the dot fails. The model reads the remainder digit from exact hundredths at every size. Between whole levels of about 10^15 and 10^18, the double nearest `int(level) / 100` no longer tells hundredths apart, so its digits can differ from the exact hundredths the model reads.
- JSON booleans, floats and arrays are not part of `Json`. Python treats `True` as 1 in comparisons and formatting, a float `Experience` is not an integer, and lists compare with each other, so five list-valued game counts give `get_most_played` a mode where the model has no such input.
- `real_title_case` and `get_mode`: `.lower()`, `.title()`, `.isalpha()` and `.split()` are modelled for ASCII letters and ASCII whitespace only. Unicode case mapping is not modelled.
- The weekly snapshot timer (bot/cogs/commands/historical/weekly.py) is not part of this model. It is an asynchronous timer over SQLite and Discord, and its only decisions come from the date library.
- bot/rendergraph.py is not part of this model. It is HTTP fetching and image drawing, with its own defaults.
- The command handlers (bot/cogs/commands/misc.py, info.py, compare.py, mostplayed.py) and bot/custombackground.py are not part of this model. They are Discord, SQLite and filesystem I/O.

## Findings

| source | as written | input that shows it | evidently intended | confidence | as-written member | corrected member |
|---|---|---|---|---|---|---|
| bot/statalib/calctools.py:98-101 | the remainder digit is read from `str(int(level) / 100)`, which drops a trailing zero, so whole levels 10, 20 and 30 of a prestige read as digits 1, 2 and 3 and get targets 1000, 2000 and 3500 | 39500 XP, level 10.5: shown as 500 of 1000 | those levels cost 5000 XP, so 2500 of 5000 | high, not executed | Progress.ProgressAtLevelTenAndAHalf | Progress.CorrectedProgressMeasuresLevel |
