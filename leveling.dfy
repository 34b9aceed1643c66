/**
 * The Bedwars experience curve: `get_level` and its inverse `xp_from_level`.
 *
 * Every 487000 XP is a prestige of 100 levels. Inside a prestige, levels
 * 0, 1, 2, 3 and 4 begin at 0, 500, 1500, 3500 and 7000 XP, and every later
 * level costs 5000 XP. Levels are fractional; Python's floats are modelled
 * as exact reals.
 */
module Leveling {
  import opened PyValues
  import opened PyText

  const XP_PER_PRESTIGE: int := 487000

  /** The XP at which levels 0 to 4 of a prestige begin (`xp_map`). */
  const XP_MAP: seq<int> := [0, 500, 1500, 3500, 7000]

  /** The XP cost of every level from level 4 of a prestige on. */
  const LATE_LEVEL_COST: int := 5000

  /** The XP, inside a prestige, at which level `k` of it begins. */
  function LevelStart(k: int): int
    requires 0 <= k < 100
  {
    if k < 4 then XP_MAP[k] else 7000 + (k - 4) * LATE_LEVEL_COST
  }

  /** The XP it takes to go from level `k` of a prestige to the next level. */
  function LevelCost(k: int): int
    requires 0 <= k < 100
  {
    if k == 0 then 500 else if k == 1 then 1000 else if k == 2 then 2000 else if k == 3 then 3500 else LATE_LEVEL_COST
  }

  /**
   * The fractional level reached after `r` XP into a prestige: linear between
   * consecutive breakpoints of `XP_MAP`, then one level per 5000 XP.
   */
  function LevelInPrestige(r: int): (level: real)
    requires 0 <= r < XP_PER_PRESTIGE
  {
    if r < 500 then r as real / 500.0
    else if r < 1500 then 1.0 + (r - 500) as real / 1000.0
    else if r < 3500 then 2.0 + (r - 1500) as real / 2000.0
    else if r < 7000 then 3.0 + (r - 3500) as real / 3500.0
    else 4.0 + (r - 7000) as real / 5000.0
  }

  /** The level for `xp`: 100 per whole prestige plus the level inside the current one. */
  function Level(xp: int): real {
    (100 * (xp / XP_PER_PRESTIGE)) as real + LevelInPrestige(xp % XP_PER_PRESTIGE)
  }

  /**
   * `get_level`: the prestige by floor division, then a scan of `xp_map` for
   * the first breakpoint above the XP left over, interpolating from the one
   * before it. Python's `//` and `%` floor; so do Dafny's for a positive divisor.
   */
  method GetLevel(xp: int) returns (level: real)
    ensures level == Level(xp)
  {
    var prestigeLevel := 100 * (xp / XP_PER_PRESTIGE);
    var rest := xp % XP_PER_PRESTIGE;
    var index := 0;
    while index < |XP_MAP|
      invariant 0 <= index <= |XP_MAP|
      invariant forall j :: 0 <= j < index ==> XP_MAP[j] <= rest
    {
      var value := XP_MAP[index];
      if rest < value {
        var factor := XP_MAP[index - 1];
        return prestigeLevel as real + (rest - factor) as real / (value - factor) as real + (index - 1) as real;
      }
      index := index + 1;
    }
    assert XP_MAP[4] <= rest;
    return prestigeLevel as real + (rest - 7000) as real / LATE_LEVEL_COST as real + 4.0;
  }

  /** Splits a level inside a prestige into its whole level `k` and the share of level `k` done. */
  lemma LevelInPrestigeSplit(r: int) returns (k: int)
    requires 0 <= r < XP_PER_PRESTIGE
    ensures 0 <= k < 100
    ensures LevelStart(k) <= r < LevelStart(k) + LevelCost(k)
    ensures LevelInPrestige(r) == k as real + (r - LevelStart(k)) as real / LevelCost(k) as real
    ensures LevelInPrestige(r).Floor == k
    ensures (LevelInPrestige(r) - k as real) * LevelCost(k) as real == (r - LevelStart(k)) as real
  {
    if r < 500 { k := 0; }
    else if r < 1500 { k := 1; }
    else if r < 3500 { k := 2; }
    else if r < 7000 { k := 3; }
    else {
      k := 4 + (r - 7000) / LATE_LEVEL_COST;
      assert LevelStart(k) == 7000 + (r - 7000) / LATE_LEVEL_COST * LATE_LEVEL_COST;
    }
    var part := (r - LevelStart(k)) as real / LevelCost(k) as real;
    assert 0.0 <= part < 1.0;
  }

  /** A level inside a prestige is at least 0 and below 100. */
  lemma LevelInPrestigeBounds(r: int)
    requires 0 <= r < XP_PER_PRESTIGE
    ensures 0.0 <= LevelInPrestige(r) < 100.0
  {
    var k := LevelInPrestigeSplit(r);
  }

  /** Zero XP is level 0; the breakpoints 500, 1500, 3500 and 7000 are levels 1 to 4; prestiges add 100. */
  lemma LevelAtBreakpoints()
    ensures Level(0) == 0.0
    ensures Level(500) == 1.0 && Level(1500) == 2.0 && Level(3500) == 3.0 && Level(7000) == 4.0
    ensures Level(487000) == 100.0 && Level(487000 + 7000) == 104.0
  {
  }

  /** Another 487000 XP is exactly another 100 levels. */
  lemma LevelPrestigePeriod(xp: int)
    ensures Level(xp + XP_PER_PRESTIGE) == Level(xp) + 100.0
  {
    assert (xp + XP_PER_PRESTIGE) / XP_PER_PRESTIGE == xp / XP_PER_PRESTIGE + 1;
    assert (xp + XP_PER_PRESTIGE) % XP_PER_PRESTIGE == xp % XP_PER_PRESTIGE;
  }

  /** Past 7000 XP into a prestige, every 5000 XP is one more level. */
  lemma LevelLateStep(xp: int)
    requires 7000 <= xp % XP_PER_PRESTIGE < XP_PER_PRESTIGE - LATE_LEVEL_COST
    ensures Level(xp + LATE_LEVEL_COST) == Level(xp) + 1.0
  {
    var p, r := xp / XP_PER_PRESTIGE, xp % XP_PER_PRESTIGE;
    assert xp + LATE_LEVEL_COST == p * XP_PER_PRESTIGE + (r + LATE_LEVEL_COST);
    assert (xp + LATE_LEVEL_COST) / XP_PER_PRESTIGE == p;
    assert (xp + LATE_LEVEL_COST) % XP_PER_PRESTIGE == r + LATE_LEVEL_COST;
  }

  /** More XP inside a prestige is a strictly higher level. */
  lemma LevelInPrestigeIncreasing(x: int, y: int)
    requires 0 <= x < y < XP_PER_PRESTIGE
    ensures LevelInPrestige(x) < LevelInPrestige(y)
  {
    var kx := LevelInPrestigeSplit(x);
    var ky := LevelInPrestigeSplit(y);
    if kx == ky {
      assert (x - LevelStart(kx)) as real < (y - LevelStart(kx)) as real;
    } else {
      assert kx < ky;
    }
  }

  /** The curve is strictly increasing, across prestige boundaries too (hence non-decreasing). */
  lemma LevelIncreasing(a: int, b: int)
    requires a < b
    ensures Level(a) < Level(b)
  {
    var pa, pb := a / XP_PER_PRESTIGE, b / XP_PER_PRESTIGE;
    var ra, rb := a % XP_PER_PRESTIGE, b % XP_PER_PRESTIGE;
    LevelInPrestigeBounds(ra);
    LevelInPrestigeBounds(rb);
    if pa == pb {
      LevelInPrestigeIncreasing(ra, rb);
    } else {
      assert pa < pb;
      assert Level(a) < (100 * pa + 100) as real <= (100 * pb) as real <= Level(b);
    }
  }

  /**
   * `xp_from_level`: split the level by `divmod(level, 100)`, then
   * interpolate inside the bracket of `xp_map` holding it, or extrapolate at
   * 5000 XP per level from level 4; `int(...)` truncates the result. The level
   * inside the prestige is never negative, so its `int` is its floor.
   */
  function XpFromLevel(level: real): (xp: int)
    ensures level >= 0.0 ==> xp >= 0
  {
    var prestige := (level / 100.0).Floor;
    var inPrestige := level - 100.0 * prestige as real;
    XpInPrestigeRange(inPrestige);
    Trunc(prestige as real * XP_PER_PRESTIGE as real + XpInPrestige(inPrestige))
  }

  /**
   * The XP into a prestige of a level inside it: interpolated in the bracket
   * of `xp_map` for levels below 4, extrapolated from 7000 XP at 5000 XP per
   * level from there on.
   */
  function XpInPrestige(inPrestige: real): real
    requires inPrestige >= 0.0
  {
    if inPrestige < 4.0 then
      var index := inPrestige.Floor;
      var factor := XP_MAP[index];
      factor as real + (inPrestige - index as real) * (XP_MAP[index + 1] - factor) as real
    else
      7000.0 + (inPrestige - 4.0) * LATE_LEVEL_COST as real
  }

  /** The XP into a prestige is never negative, and stays below 7000 exactly for the first four levels. */
  lemma XpInPrestigeRange(inPrestige: real)
    requires inPrestige >= 0.0
    ensures XpInPrestige(inPrestige) >= 0.0
    ensures inPrestige < 4.0 <==> XpInPrestige(inPrestige) < 7000.0
  {
  }

  /** `divmod(level, 100)` of a level made of `p` prestiges and `l` levels inside one. */
  lemma DivModLevel(p: int, l: real)
    requires 0.0 <= l < 100.0
    ensures (((100 * p) as real + l) / 100.0).Floor == p
  {
    var x := ((100 * p) as real + l) / 100.0;
    assert p as real <= x < p as real + 1.0;
  }

  /** With exact arithmetic `xp_from_level` undoes `get_level`, for every integer XP. */
  lemma XpFromLevelRoundTrip(xp: int)
    ensures XpFromLevel(Level(xp)) == xp
  {
    var p, r := xp / XP_PER_PRESTIGE, xp % XP_PER_PRESTIGE;
    var l := LevelInPrestige(r);
    var level := Level(xp);
    assert (level / 100.0).Floor == p by {
      LevelInPrestigeBounds(r);
      DivModLevel(p, l);
    }
    assert level - 100.0 * p as real == l;
    assert XpInPrestige(l) == r as real by {
      XpInPrestigeInverse(r);
    }
    assert p as real * XP_PER_PRESTIGE as real + r as real == xp as real;
  }

  /** Inside a prestige, the XP of the level reached after `r` XP is `r` again. */
  lemma XpInPrestigeInverse(r: int)
    requires 0 <= r < XP_PER_PRESTIGE
    ensures LevelInPrestige(r) >= 0.0
    ensures XpInPrestige(LevelInPrestige(r)) == r as real
  {
    var l := LevelInPrestige(r);
    var k := LevelInPrestigeSplit(r);
    var cost := LevelCost(k) as real;
    assert (l - k as real) * cost == (r - LevelStart(k)) as real;
    if l < 4.0 {
      assert k < 4 && XP_MAP[k] == LevelStart(k);
      assert (XP_MAP[k + 1] - XP_MAP[k]) as real == cost;
    } else {
      assert k >= 4 && cost == LATE_LEVEL_COST as real;
      assert LevelStart(k) as real == 7000.0 + (k - 4) as real * cost;
    }
  }

  /** The XP `xp_from_level` gives for a whole level `n`: the start of that level. */
  lemma XpFromWholeLevel(n: int)
    ensures 0 <= n % 100 < 100
    ensures XpFromLevel(n as real) == XP_PER_PRESTIGE * (n / 100) + LevelStart(n % 100)
  {
    var p, k := n / 100, n % 100;
    DivModLevel(p, k as real);
    assert n as real == (100 * p) as real + k as real;
    assert n as real - 100.0 * p as real == k as real;
  }

  /**
   * `xp_from_level` at `frac` of the way through whole level `n`: the XP
   * that level starts at, plus the part of its cost `frac` covers, truncated.
   */
  lemma XpFromLevelSplit(n: int, frac: real)
    requires n >= 0 && 0.0 <= frac < 1.0
    ensures 0 <= n % 100 < 100
    ensures XpFromLevel(n as real + frac)
      == XP_PER_PRESTIGE * (n / 100) + LevelStart(n % 100) + Trunc(frac * LevelCost(n % 100) as real)
  {
    XpFromLevelAt(n, frac);
    XpInPrestigeAtLevel(n, frac);
    TruncPastLevelStart(n, frac);
  }

  /** `xp_from_level` of whole level `n` plus `frac`, with `divmod(level, 100)` done. */
  lemma XpFromLevelAt(n: int, frac: real)
    requires 0.0 <= frac < 1.0
    ensures 0 <= n % 100 < 100
    ensures XpFromLevel(n as real + frac)
      == Trunc((n / 100) as real * XP_PER_PRESTIGE as real + XpInPrestige((n % 100) as real + frac))
  {
    var level, p, k := n as real + frac, n / 100, n % 100;
    assert (level / 100.0).Floor == p by {
      DivModLevel(p, k as real + frac);
      assert (100 * p) as real + (k as real + frac) == level;
    }
    assert level - 100.0 * p as real == k as real + frac;
  }

  /** `XpInPrestigeAt` for the level inside the prestige of whole level `n`. */
  lemma XpInPrestigeAtLevel(n: int, frac: real)
    requires 0.0 <= frac < 1.0
    ensures 0 <= n % 100 < 100
    ensures XpInPrestige((n % 100) as real + frac) == LevelStart(n % 100) as real + frac * LevelCost(n % 100) as real
  {
    XpInPrestigeAt(n % 100, frac);
  }

  /** `int()` of the XP at `frac` into whole level `n` splits off the level's start. */
  lemma TruncPastLevelStart(n: int, frac: real)
    requires n >= 0 && 0.0 <= frac < 1.0
    ensures 0 <= n % 100 < 100
    ensures Trunc((n / 100) as real * XP_PER_PRESTIGE as real + (LevelStart(n % 100) as real + frac * LevelCost(n % 100) as real))
      == XP_PER_PRESTIGE * (n / 100) + LevelStart(n % 100) + Trunc(frac * LevelCost(n % 100) as real)
  {
    var start, part := XP_PER_PRESTIGE * (n / 100) + LevelStart(n % 100), frac * LevelCost(n % 100) as real;
    assert (n / 100) as real * XP_PER_PRESTIGE as real + (LevelStart(n % 100) as real + part) == start as real + part;
    TruncShift(start, part);
  }

  /** Inside level `k` of a prestige, `xp_from_level`'s interpolation is the start of `k` plus `frac` of its cost. */
  lemma XpInPrestigeAt(k: int, frac: real)
    requires 0 <= k < 100 && 0.0 <= frac < 1.0
    ensures XpInPrestige(k as real + frac) == LevelStart(k) as real + frac * LevelCost(k) as real
  {
    var l := k as real + frac;
    assert l.Floor == k;
    if k < 4 {
      assert (XP_MAP[k + 1] - XP_MAP[k]) == LevelCost(k);
    } else {
      assert l - 4.0 == (k - 4) as real + frac;
    }
  }

  /** `int()` of a whole number plus a non-negative part is that number plus `int()` of the part. */
  lemma TruncShift(i: int, x: real)
    requires i >= 0 && x >= 0.0
    ensures Trunc(i as real + x) == i + Trunc(x)
  {
    var t := Trunc(x);
    assert (i + t) as real <= i as real + x < (i + t) as real + 1.0;
  }

  /** Conversely `get_level` undoes `xp_from_level` on whole levels. */
  lemma LevelOfXpFromWholeLevel(n: int)
    ensures Level(XpFromLevel(n as real)) == n as real
  {
    XpFromWholeLevel(n);
    var p, k := n / 100, n % 100;
    var xp := XpFromLevel(n as real);
    assert 0 <= LevelStart(k) < XP_PER_PRESTIGE;
    assert xp / XP_PER_PRESTIGE == p && xp % XP_PER_PRESTIGE == LevelStart(k);
    var k' := LevelInPrestigeSplit(LevelStart(k));
  }
}
