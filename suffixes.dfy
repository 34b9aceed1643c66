/**
 * `add_suffixes`: approximate each number by the largest power of a
 * thousand, from 10^60 ("NoDc") down to 10^6 ("M"), that does not exceed it;
 * numbers below a million are written in full with thousands separators.
 */
module Suffixes {
  import opened PyText

  /** The `suffixes` table, in its (strictly descending) insertion order. */
  const SUFFIXES: seq<(int, string)> := [
    (1000000000000000000000000000000000000000000000000000000000000, "NoDc"),
    (1000000000000000000000000000000000000000000000000000000000, "OcDc"),
    (1000000000000000000000000000000000000000000000000000000, "SpDc"),
    (1000000000000000000000000000000000000000000000000000, "SxDc"),
    (1000000000000000000000000000000000000000000000000, "QiDc"),
    (1000000000000000000000000000000000000000000000, "QaDc"),
    (1000000000000000000000000000000000000000000, "TDc"),
    (1000000000000000000000000000000000000000, "DDc"),
    (1000000000000000000000000000000000000, "UDc"),
    (1000000000000000000000000000000000, "Dc"),
    (1000000000000000000000000000000, "No"),
    (1000000000000000000000000000, "Oc"),
    (1000000000000000000000000, "Sp"),
    (1000000000000000000000, "Sx"),
    (1000000000000000000, "Qi"),
    (1000000000000000, "Qa"),
    (1000000000000, "T"),
    (1000000000, "B"),
    (1000000, "M")
  ]

  const MILLION: int := 1000000

  /**
   * One entry of the list `add_suffixes` returns. `Suffixed(v, t, s)` stands
   * for the text `f"{v / t:,.1f}{s}"`, whose float rendering is not modelled.
   */
  datatype Approximation = Suffixed(value: int, threshold: int, suffix: string) | Plain(text: string)

  /** Each threshold is a thousand times the next, down to a million. */
  lemma SuffixTableSteps()
    ensures |SUFFIXES| == 19 && SUFFIXES[18].0 == MILLION
    ensures forall j :: 0 <= j < 18 ==> SUFFIXES[j].0 == 1000 * SUFFIXES[j + 1].0
  {
  }

  /** The table is strictly descending, so the first threshold reached is the largest. */
  lemma {:induction false} SuffixTableDescending(i: int, j: int)
    requires 0 <= i < j < |SUFFIXES|
    ensures SUFFIXES[j].0 < SUFFIXES[i].0
    decreases j - i
  {
    SuffixTableSteps();
    if i + 1 < j {
      SuffixTableDescending(i + 1, j);
    }
  }

  /** Every threshold is at least a million. */
  lemma SuffixTableAtLeastMillion(j: int)
    requires 0 <= j < |SUFFIXES|
    ensures SUFFIXES[j].0 >= MILLION
  {
    SuffixTableSteps();
    if j < 18 {
      SuffixTableDescending(j, 18);
    }
  }

  /** What `add_suffixes` makes of `value`: the largest threshold it reaches, or the full grouped number. */
  ghost predicate Approximates(value: int, a: Approximation) {
    if value >= MILLION then
      && a.Suffixed?
      && a.value == value
      && (exists j :: 0 <= j < |SUFFIXES| && SUFFIXES[j] == (a.threshold, a.suffix))
      && a.threshold <= value
      && forall j :: 0 <= j < |SUFFIXES| && SUFFIXES[j].0 <= value ==> SUFFIXES[j].0 <= a.threshold
    else
      a == Plain(Grouped(value))
  }

  /**
   * `add_suffixes(*values)`: for each value, scan the table from the top and
   * stop at the first threshold the value reaches (`break`); when none is
   * reached (the `for`/`else` branch), write the value with separators.
   */
  method AddSuffixes(values: seq<int>) returns (formatted: seq<Approximation>)
    ensures |formatted| == |values|
    ensures forall i :: 0 <= i < |values| ==> Approximates(values[i], formatted[i])
  {
    formatted := [];
    for i := 0 to |values|
      invariant |formatted| == i
      invariant forall k :: 0 <= k < i ==> Approximates(values[k], formatted[k])
    {
      var value := values[i];
      var j := 0;
      while j < |SUFFIXES|
        invariant 0 <= j <= |SUFFIXES|
        invariant forall k :: 0 <= k < j ==> value < SUFFIXES[k].0
      {
        if value >= SUFFIXES[j].0 {
          break;
        }
        j := j + 1;
      }
      var entry: Approximation;
      if j < |SUFFIXES| {
        entry := Suffixed(value, SUFFIXES[j].0, SUFFIXES[j].1);
        SuffixTableAtLeastMillion(j);
        forall k | 0 <= k < |SUFFIXES| && SUFFIXES[k].0 <= value
          ensures SUFFIXES[k].0 <= SUFFIXES[j].0
        {
          if j < k {
            SuffixTableDescending(j, k);
          }
        }
      } else {
        entry := Plain(Grouped(value));
        assert value < SUFFIXES[18].0;
      }
      formatted := formatted + [entry];
    }
  }

  /**
   * The exact quotient `value / threshold` is at least 1 and, below 10^63,
   * less than 1000: the chosen suffix is the one for the value's magnitude.
   * Its `.1f` text can still round up to 1,000.0 (999,999,999 shows as
   * "1,000.0M").
   */
  lemma SuffixedQuotientInRange(value: int, a: Approximation)
    requires Approximates(value, a) && a.Suffixed?
    ensures a.threshold <= value
    ensures value < 1000 * SUFFIXES[0].0 ==> value < 1000 * a.threshold
  {
    var j :| 0 <= j < |SUFFIXES| && SUFFIXES[j] == (a.threshold, a.suffix);
    SuffixTableSteps();
    if j > 0 {
      assert SUFFIXES[j - 1].0 == 1000 * a.threshold;
      SuffixTableDescending(j - 1, j);
    }
  }

  /** 999999 stays in full as "999,999". */
  // The literal input comes in through `requires`, so the verifier unfolds the definitions on it only as far as the proof asks.
  lemma BelowMillionExample(value: int)
    requires value == 999999
    ensures Approximates(value, Plain("999,999"))
  {
    assert Grouped(value) == "999,999" by {
      assert value / 1000 == 999 && value % 1000 == 999;
      assert ThreeDigits(999) == "999";
      assert NatToString(9) == "9" && NatToString(99) == "99" && NatToString(999) == "999";
    }
  }

  /** The suffix is the one of the largest threshold reached: a million is "M" (shown as 1.0M). */
  // The literal input comes in through `requires`, so the verifier unfolds the definitions on it only as far as the proof asks.
  lemma MillionExample(value: int)
    requires value == MILLION
    ensures Approximates(value, Suffixed(value, MILLION, "M"))
  {
    SuffixTableSteps();
    assert SUFFIXES[18] == (MILLION, "M");
    forall j | 0 <= j < |SUFFIXES| && SUFFIXES[j].0 <= value ensures SUFFIXES[j].0 <= MILLION {
      if j < 18 {
        SuffixTableDescending(j, 18);
      }
    }
  }

  /** 1500000000 is past a billion and below a trillion: "B" (shown as 1.5B). */
  // The literal input comes in through `requires`, so the verifier unfolds the definitions on it only as far as the proof asks.
  lemma BillionsExample(value: int)
    requires value == 1500000000
    ensures Approximates(value, Suffixed(value, 1000000000, "B"))
  {
    SuffixTableSteps();
    assert SUFFIXES[17] == (1000000000, "B");
    forall j | 0 <= j < |SUFFIXES| && SUFFIXES[j].0 <= value ensures SUFFIXES[j].0 <= 1000000000 {
      if j < 17 {
        SuffixTableDescending(j, 16);
      }
    }
  }
}
