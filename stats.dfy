/** `getStats()` (script.js:80-86): total, completed and a rounded percentage. */
module Stats {
  import opened Tasks

  datatype Stats = Stats(total: nat, completed: nat, percentage: nat)

  /** `total === 0 ? 0 : Math.round((completed / total) * 100)` on integers:
      for non-negative operands `Math.round` rounds halves up, so the result
      is the whole number nearest to 100 * completed / total, the upper one on
      a tie. Stated without division: p - 1/2 <= 100 * completed / total < p + 1/2. */
  function Percentage(completed: nat, total: nat): (p: nat)
    requires completed <= total
    ensures p <= 100
    ensures total == 0 ==> p == 0
    ensures total > 0 ==> total * (2 * p - 1) <= 200 * completed < total * (2 * p + 1)
  {
    if total == 0 then 0
    else
      var p := (200 * completed + total) / (2 * total);
      DivisionBounds(200 * completed + total, 2 * total);
      assert p <= 100 by {
        if p > 100 {
          ScaleMonotone(total, 101, p);
        }
      }
      p
  }

  /** What Euclidean division guarantees of the quotient, spelled out. */
  lemma DivisionBounds(x: nat, d: nat)
    requires d > 0
    ensures d * (x / d) <= x < d * (x / d) + d
  {
  }

  /** Multiplying by a natural number keeps the order. */
  lemma ScaleMonotone(k: nat, a: int, b: int)
    requires a <= b
    ensures k * a <= k * b
  {
  }

  /** The rounding rule fixes the percentage: any whole number within half a
      point of 100 * completed / total, counting the lower tie and not the
      upper, is the one `Percentage` returns. */
  lemma PercentageUnique(completed: nat, total: nat, q: int)
    requires 0 < total && completed <= total
    requires total * (2 * q - 1) <= 200 * completed < total * (2 * q + 1)
    ensures q == Percentage(completed, total)
  {
    var p := Percentage(completed, total);
    if q < p {
      // q + 1 <= p, so total * (2q + 1) <= total * (2p - 1) <= 200 * completed
      ScaleMonotone(total, 2 * q + 1, 2 * p - 1);
    } else if p < q {
      ScaleMonotone(total, 2 * p + 1, 2 * q - 1);
    }
  }

  /** More completed tasks never lower the percentage. */
  lemma PercentageMonotone(c1: nat, c2: nat, total: nat)
    requires c1 <= c2 <= total
    ensures Percentage(c1, total) <= Percentage(c2, total)
  {
    if total > 0 {
      var p1, p2 := Percentage(c1, total), Percentage(c2, total);
      if p2 < p1 {
        // total * (2 * p2 + 1) <= total * (2 * p1 - 1) <= 200 * c1 <= 200 * c2
        ScaleMonotone(total, 2 * p2 + 1, 2 * p1 - 1);
      }
    }
  }

  /** The boundary cases of the progress bar: nothing done is 0 and all done
      is 100, whatever the size of the list. */
  lemma PercentageEnds(total: nat)
    ensures Percentage(0, total) == 0
    ensures total > 0 ==> Percentage(total, total) == 100
  {
    if total > 0 {
      PercentageUnique(0, total, 0);
      PercentageUnique(total, total, 100);
    }
  }

  /** Below 200 tasks the bar reads 100 only when every task is done; from
      200 tasks on, 199 of 200 already rounds to 100 (99.5 rounds up). */
  lemma HundredMeansAllDone(completed: nat, total: nat)
    requires completed <= total < 200
    ensures Percentage(completed, total) == 100 <==> total > 0 && completed == total
  {
    PercentageEnds(total);
  }

  lemma NearlyAllDoneShowsHundred()
    ensures Percentage(199, 200) == 100
  {
    PercentageUnique(199, 200, 100);
  }

  /** Up to 200 tasks the bar reads 0 only when no task is done; from 201
      tasks on, 1 of 201 rounds down to 0. */
  lemma ZeroMeansNoneDone(completed: nat, total: nat)
    requires completed <= total <= 200
    ensures Percentage(completed, total) == 0 <==> completed == 0
  {
    PercentageEnds(total);
  }

  lemma OneDoneShowsZero()
    ensures Percentage(1, 201) == 0
  {
    PercentageUnique(1, 201, 0);
  }

  /** The tie-breaking cases: 1 of 2 is 50, 1 of 3 is 33 and 2 of 3 is 67. */
  lemma PercentageExamples()
    ensures Percentage(1, 2) == 50
    ensures Percentage(1, 3) == 33
    ensures Percentage(2, 3) == 67
    ensures Percentage(1, 8) == 13
  {
    PercentageUnique(1, 2, 50);
    PercentageUnique(1, 3, 33);
    PercentageUnique(2, 3, 67);
    PercentageUnique(1, 8, 13);
  }

  /** The statistics `getStats()` derives from a task list. */
  function StatsOf(tasks: seq<Task>): (s: Stats)
    ensures s.total == |tasks| && s.completed == CountDone(tasks) && s.completed <= s.total
    ensures s.percentage <= 100
    ensures s.total == 0 ==> s == Stats(0, 0, 0)
    ensures s.total > 0 ==> s.total * (2 * s.percentage - 1) <= 200 * s.completed < s.total * (2 * s.percentage + 1)
  {
    var done := CountDone(tasks);
    Stats(|tasks|, done, Percentage(done, |tasks|))
  }
}
