/**
 * `get_progress`: how far the player is into the current level, out of the
 * XP the level costs, and the same share in tenths for the progress bar.
 * The level's text is modelled exactly for the whole level (`str(int(level) / 100)`)
 * and as an exact fractional part for the fraction (`str(level)`).
 */
module Progress {
  import opened PyValues
  import opened PyText
  import opened Leveling

  /** `remainder_map`: the target for the remainder digits 0 to 3; any other digit gets 5000. */
  const REMAINDER_TARGETS: map<int, int> := map[0 := 500, 1 := 1000, 2 := 2000, 3 := 3500]

  function TargetFor(remainder: int): int {
    if remainder in REMAINDER_TARGETS then REMAINDER_TARGETS[remainder] else LATE_LEVEL_COST
  }

  /** `int(str(n / 100).split(".")[-1])`, the remainder digit of the whole level `n`. */
  function RemainderDigit(n: int): int {
    HundredthsTail(n);
    ParseDigits(AfterLastDot(HundredthsText(n)))
  }

  /**
   * The remainder digit in arithmetic terms: with `r` the whole level modulo
   * 100, it is 0 for `r = 0`, `r / 10` when `r` is a multiple of 10 (Python
   * prints `3.4`, not `3.40`), and `r` otherwise.
   */
  lemma RemainderDigitValue(n: int)
    ensures var r := (if n < 0 then -n else n) % 100;
      RemainderDigit(n) == if r == 0 then 0 else if r % 10 == 0 then r / 10 else r
  {
    var r := (if n < 0 then -n else n) % 100;
    HundredthsTail(n);
    var f := HundredthsFraction(r);
    assert RemainderDigit(n) == ParseDigits(f);
    if r % 10 == 0 {
      assert f[..0] == [];
      assert ParseDigits(f) == DigitValue(f[0]) == r / 10;
    } else {
      assert f[..1][..0] == [];
      assert ParseDigits(f[..1]) == r / 10;
      assert ParseDigits(f) == ParseDigits(f[..1]) * 10 + r % 10;
    }
  }

  /** Level 340 has remainder digit 4 (from `3.4`), level 10 has 1 (from `0.1`), level 5 has 5 (from `0.05`). */
  // The literal input comes in through `requires`, so the verifier unfolds the definitions on it only as far as the proof asks.
  lemma RemainderDigitExamples(a: int, b: int, c: int)
    requires a == 340 && b == 10 && c == 5
    ensures RemainderDigit(a) == 4 && RemainderDigit(b) == 1 && RemainderDigit(c) == 5
  {
    RemainderDigitValue(a);
    RemainderDigitValue(b);
    RemainderDigitValue(c);
  }

  /** `float('.' + str(level).split('.')[-1])`: the part of `level` after the point, sign dropped. */
  function FractionDigits(level: real): (f: real)
    ensures 0.0 <= f < 1.0
  {
    var a := if level < 0.0 then -level else level;
    a - a.Floor as real
  }

  /** The three figures of `get_progress` before they are formatted. */
  datatype LevelProgress = LevelProgress(progress: int, target: int, outOfTen: int)

  /** The figures `get_progress` derives from the level, as written. */
  function ProgressFigures(level: real): (f: LevelProgress)
    ensures f.target in {500, 1000, 2000, 3500, 5000}
    ensures 0 <= f.progress < f.target
    ensures 0 <= f.outOfTen <= 10
  {
    var remainder := RemainderDigit(Trunc(level));
    FiguresFor(level, TargetFor(remainder))
  }

  /** Progress, target and tenths once a target is chosen: `progress / (target / 10)` rounded. */
  function FiguresFor(level: real, target: int): (f: LevelProgress)
    requires target > 0
    ensures f.target == target
    ensures 0 <= f.progress < target
    ensures 0 <= f.outOfTen <= 10
    ensures f.outOfTen == RoundHalfEven(10.0 * FractionDigits(level))
  {
    var share := FractionDigits(level);
    var progress := share * target as real;
    var divideBy := target as real / 10.0;
    ScaledShare(share, target);
    LevelProgress(Trunc(progress), target, RoundHalfEven(progress / divideBy))
  }

  /**
   * A share in [0, 1) of a positive target truncates to below the target,
   * and measured in tenths of the target it is ten times the share, which
   * rounds to 0 to 10.
   */
  lemma ScaledShare(share: real, target: int)
    requires 0.0 <= share < 1.0 && target > 0
    ensures 0 <= Trunc(share * target as real) < target
    ensures (share * target as real) / (target as real / 10.0) == 10.0 * share
    ensures 0 <= RoundHalfEven(10.0 * share) <= 10
  {
    ProductBelow(share, target);
    TenthsOf(share, target);
    TenthsRound(share);
  }

  /** Ten times a share in [0, 1) rounds to 0 to 10. */
  lemma TenthsRound(share: real)
    requires 0.0 <= share < 1.0
    ensures 0 <= RoundHalfEven(10.0 * share) <= 10
  {
    var tenths := 10.0 * share;
    assert 0.0 <= tenths < 10.0;
  }

  /** A share of an amount, measured in tenths of the amount, is ten times the share. */
  lemma TenthsOf(share: real, target: int)
    requires target > 0
    ensures (share * target as real) / (target as real / 10.0) == 10.0 * share
  {
    var t := target as real;
    var d := t / 10.0;
    assert d * 10.0 == t;
    assert (10.0 * share) * d == share * t;
  }

  /** A share in [0, 1) of a positive amount is at least 0 and below the amount. */
  lemma ProductBelow(share: real, target: int)
    requires 0.0 <= share < 1.0 && target > 0
    ensures 0 <= Trunc(share * target as real) < target
  {
    var t := target as real;
    assert 0.0 <= share * t < t by {
      assert (1.0 - share) * t > 0.0;
    }
  }

  /**
   * The figures the code evidently means: the target is the XP cost of the
   * current level, chosen by the whole level modulo 100 rather than by its
   * remainder digit.
   */
  function CorrectedProgressFigures(level: real): (f: LevelProgress)
    ensures 0 <= f.progress < f.target
    ensures 0 <= f.outOfTen <= 10
  {
    var whole := Trunc(level);
    FiguresFor(level, LevelCost((if whole < 0 then -whole else whole) % 100))
  }

  /** `xp_from_level` puts consecutive whole levels exactly one level cost apart, across prestiges too. */
  lemma XpFromNextLevel(n: int)
    ensures 0 <= n % 100 < 100
    ensures XpFromLevel((n + 1) as real) - XpFromLevel(n as real) == LevelCost(n % 100)
  {
    XpFromWholeLevel(n);
    XpFromWholeLevel(n + 1);
    if n % 100 < 99 {
      assert (n + 1) / 100 == n / 100 && (n + 1) % 100 == n % 100 + 1;
    } else {
      assert (n + 1) / 100 == n / 100 + 1 && (n + 1) % 100 == 0;
    }
  }

  /**
   * At `frac` of the way through whole level `n`, the corrected progress is
   * the XP `xp_from_level` counts between the whole level and the level
   * itself, the target is the XP between the whole level and the next, and
   * the tenths are the fraction rounded.
   */
  lemma CorrectedProgressMeasuresLevel(n: int, frac: real)
    requires n >= 0 && 0.0 <= frac < 1.0
    ensures CorrectedProgressFigures(n as real + frac).progress == XpFromLevel(n as real + frac) - XpFromLevel(n as real)
    ensures CorrectedProgressFigures(n as real + frac).target == XpFromLevel((n + 1) as real) - XpFromLevel(n as real)
    ensures CorrectedProgressFigures(n as real + frac).outOfTen == RoundHalfEven(10.0 * frac)
  {
    CorrectedFiguresAt(n, frac);
    XpPastWholeLevel(n, frac);
    XpFromNextLevel(n);
  }

  /** The corrected figures at `frac` of the way through whole level `n`, in terms of that level's cost. */
  lemma CorrectedFiguresAt(n: int, frac: real)
    requires n >= 0 && 0.0 <= frac < 1.0
    ensures CorrectedProgressFigures(n as real + frac).progress == Trunc(frac * LevelCost(n % 100) as real)
    ensures CorrectedProgressFigures(n as real + frac).target == LevelCost(n % 100)
    ensures CorrectedProgressFigures(n as real + frac).outOfTen == RoundHalfEven(10.0 * frac)
  {
    WholeAndFraction(n, frac);
    CorrectedTargetAt(n, frac);
    FiguresAtLevel(n, frac);
    ShareOfCost(n, frac);
  }

  /** Whole level `n` gets the cost of level `n % 100` as its corrected target. */
  lemma CorrectedTargetAt(n: int, frac: real)
    requires n >= 0 && 0.0 <= frac < 1.0
    ensures CorrectedProgressFigures(n as real + frac) == FiguresFor(n as real + frac, LevelCost(n % 100))
  {
    WholeAndFraction(n, frac);
  }

  /** The figures at `n + frac` for the cost of level `n % 100`, before the share is simplified. */
  lemma FiguresAtLevel(n: int, frac: real)
    requires n >= 0 && 0.0 <= frac < 1.0
    ensures FiguresFor(n as real + frac, LevelCost(n % 100)).progress
      == Trunc(FractionDigits(n as real + frac) * LevelCost(n % 100) as real)
  {
  }

  /** The part after the point of `n + frac`, times the cost of level `n`, is `frac` of that cost. */
  lemma ShareOfCost(n: int, frac: real)
    requires n >= 0 && 0.0 <= frac < 1.0
    ensures Trunc(FractionDigits(n as real + frac) * LevelCost(n % 100) as real) == Trunc(frac * LevelCost(n % 100) as real)
  {
    WholeAndFraction(n, frac);
  }

  /** `xp_from_level` counts `frac` of the cost of whole level `n`, truncated, between `n` and `n + frac`. */
  lemma XpPastWholeLevel(n: int, frac: real)
    requires n >= 0 && 0.0 <= frac < 1.0
    ensures 0 <= n % 100 < 100
    ensures XpFromLevel(n as real + frac) - XpFromLevel(n as real) == Trunc(frac * LevelCost(n % 100) as real)
  {
    XpFromLevelSplit(n, frac);
    XpFromWholeLevel(n);
  }

  /** Whole level `n` plus a fraction `frac` truncates to `n`, and `frac` is the part after the point. */
  lemma WholeAndFraction(n: int, frac: real)
    requires n >= 0 && 0.0 <= frac < 1.0
    ensures Trunc(n as real + frac) == n
    ensures FractionDigits(n as real + frac) == frac
  {
    assert (n as real + frac).Floor == n;
  }

  /**
   * For any XP, the corrected progress is the XP earned since the current
   * whole level began, and the target is what that level costs.
   */
  lemma CorrectedProgressMeasuresXp(xp: int)
    requires xp >= 0
    ensures var n, f := Level(xp).Floor, CorrectedProgressFigures(Level(xp));
      && f.progress == xp - XpFromLevel(n as real)
      && f.target == XpFromLevel((n + 1) as real) - XpFromLevel(n as real)
  {
    var level := Level(xp);
    LevelInPrestigeBounds(xp % XP_PER_PRESTIGE);
    var n := level.Floor;
    assert level == n as real + (level - n as real);
    CorrectedProgressMeasuresLevel(n, level - n as real);
    XpFromLevelRoundTrip(xp);
  }

  /**
   * As written, the two disagree exactly when the whole level modulo 100 is
   * 10, 20 or 30 (remainder digit 1, 2 or 3): the target and progress are
   * then 1000, 2000 or 3500-based instead of 5000-based. The tenths never differ.
   */
  lemma ProgressAsWrittenVersusCorrected(level: real)
    requires level >= 0.0
    ensures ProgressFigures(level).outOfTen == CorrectedProgressFigures(level).outOfTen
    ensures ProgressFigures(level) == CorrectedProgressFigures(level) <==> Trunc(level) % 100 !in {10, 20, 30}
  {
    var n := Trunc(level);
    assert n >= 0;
    var written, corrected := TargetFor(RemainderDigit(n)), LevelCost(n % 100);
    assert ProgressFigures(level) == FiguresFor(level, written);
    assert CorrectedProgressFigures(level) == FiguresFor(level, corrected);
    TargetsAgree(n);
  }

  /** The remainder digit's target is the level's cost except at 10, 20 and 30 past a hundred. */
  lemma TargetsAgree(n: int)
    requires n >= 0
    ensures TargetFor(RemainderDigit(n)) == LevelCost(n % 100) <==> n % 100 !in {10, 20, 30}
  {
    RemainderDigitValue(n);
    var r := n % 100;
    var d := RemainderDigit(n);
    assert d == if r == 0 then 0 else if r % 10 == 0 then r / 10 else r;
    DigitTargetAgrees(r, d);
  }

  /** The target of remainder digit `d` of `r` past a hundred, against the cost of level `r`. */
  lemma DigitTargetAgrees(r: int, d: int)
    requires 0 <= r < 100
    requires d == if r == 0 then 0 else if r % 10 == 0 then r / 10 else r
    ensures TargetFor(d) == LevelCost(r) <==> r !in {10, 20, 30}
  {
    if r < 10 {
      assert d == r;
    } else if r in {10, 20, 30} {
      assert 1 <= d <= 3;
    } else {
      assert d >= 4;
    }
  }

  /** The counterexample: 39500 XP is level 10.5, shown as 500 / 1,000 instead of 2,500 / 5,000. */
  lemma ProgressAtLevelTenAndAHalf()
    ensures Level(39500) == 10.5
    ensures ProgressFigures(10.5) == LevelProgress(500, 1000, 5)
    ensures CorrectedProgressFigures(10.5) == LevelProgress(2500, 5000, 5)
  {
    RemainderDigitValue(10);
    assert FractionDigits(10.5) == 0.5;
  }

  /** The three strings and the number `get_progress` returns. */
  datatype ProgressDisplay = ProgressDisplay(progress: string, target: string, outOfTen: int)

  /**
   * The `f'{int(progress):,}', f'{int(target):,}', progress_out_of_ten`
   * triple: both numbers read back, a non-negative one in the grouped layout,
   * and the tenths are unchanged.
   */
  function Display(f: LevelProgress): (d: ProgressDisplay)
    ensures ReadGrouped(d.progress) == Some(f.progress)
    ensures ReadGrouped(d.target) == Some(f.target)
    ensures f.progress >= 0 ==> WellGrouped(d.progress)
    ensures f.target >= 0 ==> WellGrouped(d.target)
    ensures d.outOfTen == f.outOfTen
  {
    GroupedRoundTrip(f.progress);
    GroupedRoundTrip(f.target);
    ProgressDisplay(Grouped(f.progress), Grouped(f.target), f.outOfTen)
  }

  /** A player without experience is shown 0 of 500 and no tenths. */
  lemma ZeroExperienceDisplay()
    ensures Display(ProgressFigures(Level(0))) == ProgressDisplay("0", "500", 0)
  {
    ZeroExperienceFigures(0);
    GroupedZeroAndTarget();
  }

  /** Zero experience is level 0.0, remainder digit 0, so 0 of 500 XP and no tenths. */
  // The literal input comes in through `requires`, so the verifier unfolds the definitions on it only as far as the proof asks.
  lemma ZeroExperienceFigures(xp: int)
    requires xp == 0
    ensures ProgressFigures(Level(xp)) == LevelProgress(0, 500, 0)
  {
    assert Level(xp) == 0.0;
    FiguresAtLevelZero(Level(xp));
  }

  // The literal input comes in through `requires`, so the verifier unfolds the definitions on it only as far as the proof asks.
  lemma FiguresAtLevelZero(level: real)
    requires level == 0.0
    ensures ProgressFigures(level) == LevelProgress(0, 500, 0)
  {
    var n := Trunc(level);
    assert n == 0 && FractionDigits(level) == 0.0;
    var digit := RemainderDigit(n);
    assert digit == 0 by { RemainderDigitValue(n); }
    assert TargetFor(digit) == 500;
    assert ProgressFigures(level) == FiguresFor(level, 500);
  }

  lemma GroupedZeroAndTarget()
    ensures Grouped(0) == "0" && Grouped(500) == "500"
  {
    assert NatToString(0) == "0";
    assert NatToString(5) == "5";
    assert NatToString(50) == "50";
    assert NatToString(500) == "500";
  }

  /**
   * `get_progress` on the Bedwars section: the level of its `Experience`
   * (0 when missing). Any value other than an integer makes `get_level` raise.
   */
  function GetProgress(bedwars: map<string, Json>): (r: Result<ProgressDisplay>)
    ensures r.Raises? <==> !Get(bedwars, "Experience", JInt(0)).JInt?
    ensures r.Raises? ==> r.error == TypeError
    ensures r.Ok? ==> var f := ProgressFigures(Level(Get(bedwars, "Experience", JInt(0)).n));
      && ReadGrouped(r.value.progress) == Some(f.progress)
      && ReadGrouped(r.value.target) == Some(f.target)
      && r.value.outOfTen == f.outOfTen
    ensures r.Ok? ==> WellGrouped(r.value.progress) && WellGrouped(r.value.target)
    ensures "Experience" !in bedwars ==> r == Ok(ProgressDisplay("0", "500", 0))
  {
    match Get(bedwars, "Experience", JInt(0))
    case JInt(xp) =>
      var f := ProgressFigures(Level(xp));
      ZeroExperienceDisplay();
      Ok(Display(f))
    case _ => Raises(TypeError)
  }
}
