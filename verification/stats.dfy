/** Derived figures of a topic: money earned and completion percentage, from its subtopics. */
module Stats {
  import opened Basics
  import opened JsMath
  import opened Records

  /** What a subtopic pays once its reps goal is reached: its goal amount, or nothing
      unless both the reps goal and the amount are positive. */
  function Payout(st: SubtopicRow): (r: real) {
    if st.repsGoal > 0 && st.goalAmount.Some? && st.goalAmount.value > 0.0
    then st.goalAmount.value
    else 0.0
  }

  /** Money earned on one subtopic so far. A NULL amount counts as not positive. */
  function Earned(st: SubtopicRow): (r: real)
    ensures Payout(st) == 0.0 ==> r == 0.0
    ensures Payout(st) > 0.0 ==> r * st.repsGoal as real == st.repsCompleted as real * Payout(st)
    ensures st.repsCompleted == st.repsGoal ==> r == Payout(st)
    ensures InBounds(st) ==> 0.0 <= r <= Payout(st)
  {
    if st.goalAmount.None? || st.repsGoal <= 0 || st.goalAmount.value <= 0.0 then 0.0
    else
      var moneyPerRep := st.goalAmount.value / st.repsGoal as real;
      assert moneyPerRep * st.repsGoal as real == st.goalAmount.value;
      assert InBounds(st) ==> st.repsCompleted as real * moneyPerRep <= st.repsGoal as real * moneyPerRep;
      st.repsCompleted as real * moneyPerRep
  }

  /** Earnings grow with completed reps. */
  lemma EarnedMonotone(x: SubtopicRow, y: SubtopicRow)
    requires RaisedFrom(x, y)
    ensures Earned(x) <= Earned(y)
  {
    if Payout(x) > 0.0 {
      var rate := Payout(x) / x.repsGoal as real;
      assert Earned(x) == x.repsCompleted as real * rate;
      assert Earned(y) == y.repsCompleted as real * rate;
      assert (y.repsCompleted - x.repsCompleted) as real * rate >= 0.0;
    }
  }

  // The three sums below fold from the left, in list order, like `reduce` with start 0.

  function TotalCompleted(subs: seq<SubtopicRow>): (r: int) {
    if |subs| == 0 then 0
    else TotalCompleted(subs[..|subs| - 1]) + subs[|subs| - 1].repsCompleted
  }

  function TotalGoal(subs: seq<SubtopicRow>): (r: int) {
    if |subs| == 0 then 0
    else TotalGoal(subs[..|subs| - 1]) + subs[|subs| - 1].repsGoal
  }

  function TotalEarned(subs: seq<SubtopicRow>): (r: real) {
    if |subs| == 0 then 0.0
    else TotalEarned(subs[..|subs| - 1]) + Earned(subs[|subs| - 1])
  }

  /** The sum of the subtopics' full payouts: the most a topic can earn. */
  function TotalPayout(subs: seq<SubtopicRow>): (r: real) {
    if |subs| == 0 then 0.0
    else TotalPayout(subs[..|subs| - 1]) + Payout(subs[|subs| - 1])
  }

  /** `r` is `part / whole * 100` rounded to the nearest integer (a half going up). */
  predicate RoundedPercent(r: int, part: int, whole: int)
    requires whole > 0
  {
    r as real - 0.5 <= part as real / whole as real * 100.0 < r as real + 0.5
  }

  /** A rounded percentage `part / whole * 100`, or 0 when `whole` is not positive.
      Used for a topic's completion and for the dashboard's progress. */
  function Percent(part: int, whole: int): (r: int)
    ensures whole > 0 ==> RoundedPercent(r, part, whole)
    ensures whole <= 0 ==> r == 0
    ensures 0 <= part <= whole ==> 0 <= r <= 100
    ensures 0 < whole == part ==> r == 100
    ensures 0 < whole && part == 0 ==> r == 0
  {
    if whole > 0 then
      var ratio := part as real / whole as real;
      assert ratio * whole as real == part as real;
      assert part == whole ==> ratio == 1.0 by {
        if part == whole {
          assert (ratio - 1.0) * whole as real == 0.0;
        }
      }
      assert 0 <= part <= whole ==> 0.0 <= ratio <= 1.0;
      RoundIsNearest(100.0, 100);
      Round(ratio * 100.0)
    else 0
  }

  lemma PercentMonotone(part: int, part': int, whole: int)
    requires part <= part'
    ensures Percent(part, whole) <= Percent(part', whole)
  {
    if whole > 0 {
      var w := whole as real;
      assert part as real / w <= part' as real / w;
      RoundMonotone(part as real / w * 100.0, part' as real / w * 100.0);
    }
  }

  datatype TopicStats = TopicStats(completionPercentage: int, earnings: real)

  /** A topic's completion percentage and (unrounded) earnings. */
  function CalculateTopicStats(subs: seq<SubtopicRow>): (r: TopicStats)
    ensures |subs| == 0 ==> r == TopicStats(0, 0.0)
    ensures r.earnings == TotalEarned(subs)
    ensures TotalGoal(subs) <= 0 ==> r.completionPercentage == 0
    ensures TotalGoal(subs) > 0 ==>
      RoundedPercent(r.completionPercentage, TotalCompleted(subs), TotalGoal(subs))
    ensures AllInBounds(subs) ==> 0 <= r.completionPercentage <= 100
    ensures AllInBounds(subs) ==> 0.0 <= r.earnings <= TotalPayout(subs)
  {
    if |subs| == 0 then TopicStats(0, 0.0)
    else
      TotalsInBounds(subs);
      TopicStats(Percent(TotalCompleted(subs), TotalGoal(subs)), TotalEarned(subs))
  }

  lemma TotalsOfSingleton(x: SubtopicRow)
    ensures TotalCompleted([x]) == x.repsCompleted && TotalGoal([x]) == x.repsGoal
    ensures TotalEarned([x]) == Earned(x) && TotalPayout([x]) == Payout(x)
  {
    assert [x][..0] == [];
  }

  lemma {:induction false} TotalsAppend(a: seq<SubtopicRow>, b: seq<SubtopicRow>)
    ensures TotalCompleted(a + b) == TotalCompleted(a) + TotalCompleted(b)
    ensures TotalGoal(a + b) == TotalGoal(a) + TotalGoal(b)
    ensures TotalEarned(a + b) == TotalEarned(a) + TotalEarned(b)
    ensures TotalPayout(a + b) == TotalPayout(a) + TotalPayout(b)
    decreases |b|
  {
    if |b| == 0 {
      assert a + b == a;
    } else {
      var b' := b[..|b| - 1];
      assert (a + b)[..|a + b| - 1] == a + b';
      TotalsAppend(a, b');
    }
  }

  /** Taking the subtopic at `j` out of the list takes exactly its share out of each total. */
  lemma TotalsRemoveAt(b: seq<SubtopicRow>, j: nat)
    requires j < |b|
    ensures var rest := b[..j] + b[j + 1..];
      && TotalCompleted(b) == TotalCompleted(rest) + b[j].repsCompleted
      && TotalGoal(b) == TotalGoal(rest) + b[j].repsGoal
      && TotalEarned(b) == TotalEarned(rest) + Earned(b[j])
      && TotalPayout(b) == TotalPayout(rest) + Payout(b[j])
  {
    var left, right := b[..j], b[j + 1..];
    assert b == left + ([b[j]] + right);
    TotalsAppend(left, [b[j]] + right);
    TotalsAppend([b[j]], right);
    TotalsAppend(left, right);
    TotalsOfSingleton(b[j]);
  }

  /** Taking one copy of the same element out of two equal multisets leaves them equal. */
  lemma MultisetRemove(a: seq<SubtopicRow>, n: nat, b: seq<SubtopicRow>, j: nat)
    requires n == |a| - 1 && j < |b| && a[n] == b[j]
    requires multiset(a) == multiset(b)
    ensures multiset(a[..n]) == multiset(b[..j] + b[j + 1..])
  {
    var x := a[n];
    var left, right := b[..j], b[j + 1..];
    assert a == a[..n] + [x];
    assert b == left + [x] + right;
    var ma, mb := multiset(a[..n]), multiset(left) + multiset(right);
    assert multiset(a) == ma + multiset{x};
    assert multiset(b) == mb + multiset{x};
    assert multiset(left + right) == mb;
    assert ma == mb by {
      forall y ensures ma[y] == mb[y] {
        assert (ma + multiset{x})[y] == (mb + multiset{x})[y];
      }
    }
  }

  /** The totals do not depend on the order the subtopics are listed in. */
  lemma {:induction false} TotalsPermutation(a: seq<SubtopicRow>, b: seq<SubtopicRow>)
    requires multiset(a) == multiset(b)
    ensures TotalCompleted(a) == TotalCompleted(b)
    ensures TotalGoal(a) == TotalGoal(b)
    ensures TotalEarned(a) == TotalEarned(b)
    ensures TotalPayout(a) == TotalPayout(b)
    decreases |a|
  {
    if |a| == 0 {
      assert |b| == |multiset(b)| == 0;
    } else {
      var n := |a| - 1;
      var x := a[n];
      assert x in multiset(b) by {
        assert x in a;
      }
      var j :| 0 <= j < |b| && b[j] == x;
      var b' := b[..j] + b[j + 1..];
      MultisetRemove(a, n, b, j);
      TotalsPermutation(a[..n], b');
      TotalsRemoveAt(a, n);
      TotalsRemoveAt(b, j);
      assert a[..n] + a[n + 1..] == a[..n];
    }
  }

  /** A topic's figures depend only on which subtopics it has, not on their order. */
  lemma TopicStatsOrderIndependent(a: seq<SubtopicRow>, b: seq<SubtopicRow>)
    requires multiset(a) == multiset(b)
    ensures CalculateTopicStats(a) == CalculateTopicStats(b)
  {
    TotalsPermutation(a, b);
    assert |a| == |multiset(a)| == |multiset(b)| == |b|;
  }

  /** Under the bounds invariant the totals stay within their natural ranges. */
  lemma {:induction false} TotalsInBounds(subs: seq<SubtopicRow>)
    ensures AllInBounds(subs) ==> 0 <= TotalCompleted(subs) <= TotalGoal(subs)
    ensures AllInBounds(subs) ==> 0.0 <= TotalEarned(subs) <= TotalPayout(subs)
  {
    if |subs| > 0 && AllInBounds(subs) {
      var p := subs[..|subs| - 1];
      assert AllInBounds(p) by {
        forall i | 0 <= i < |p| ensures InBounds(p[i]) {
          assert p[i] == subs[i];
        }
      }
      TotalsInBounds(p);
      assert InBounds(subs[|subs| - 1]);
    }
  }

  /** Raising completed reps never lowers the totals and leaves the goals alone. */
  lemma {:induction false} TotalsMonotone(a: seq<SubtopicRow>, b: seq<SubtopicRow>)
    requires Dominates(a, b)
    ensures TotalGoal(a) == TotalGoal(b)
    ensures TotalPayout(a) == TotalPayout(b)
    ensures TotalCompleted(a) <= TotalCompleted(b)
    ensures TotalEarned(a) <= TotalEarned(b)
  {
    if |a| > 0 {
      var n := |a| - 1;
      assert Dominates(a[..n], b[..n]) by {
        forall i | 0 <= i < n ensures RaisedFrom(a[..n][i], b[..n][i]) {
          assert RaisedFrom(a[i], b[i]);
        }
      }
      TotalsMonotone(a[..n], b[..n]);
      assert RaisedFrom(a[n], b[n]);
      EarnedMonotone(a[n], b[n]);
    }
  }

  /** Raising completed reps never lowers a topic's completion or earnings. */
  lemma TopicStatsMonotone(a: seq<SubtopicRow>, b: seq<SubtopicRow>)
    requires Dominates(a, b)
    ensures CalculateTopicStats(a).completionPercentage <= CalculateTopicStats(b).completionPercentage
    ensures CalculateTopicStats(a).earnings <= CalculateTopicStats(b).earnings
  {
    TotalsMonotone(a, b);
    if |a| > 0 {
      PercentMonotone(TotalCompleted(a), TotalCompleted(b), TotalGoal(a));
    }
  }

  /** One more completed rep on any one subtopic never lowers its topic's figures. */
  lemma OneMoreRepMonotone(subs: seq<SubtopicRow>, i: nat)
    requires i < |subs|
    ensures var raised := subs[i := subs[i].(repsCompleted := subs[i].repsCompleted + 1)];
      && CalculateTopicStats(subs).completionPercentage <= CalculateTopicStats(raised).completionPercentage
      && CalculateTopicStats(subs).earnings <= CalculateTopicStats(raised).earnings
  {
    var raised := subs[i := subs[i].(repsCompleted := subs[i].repsCompleted + 1)];
    assert Dominates(subs, raised);
    TopicStatsMonotone(subs, raised);
  }

  /** A worked example: 9 of 18 reps on a 100 goal and 0 of 10 on a 50 goal give 9/28 = 32%
      completion and 50 earned. */
  lemma WorkedExample()
    ensures CalculateTopicStats([
      SubtopicRow(1, 1, None, 18, 9, None, None, Some(100.0)),
      SubtopicRow(2, 1, None, 10, 0, None, None, Some(50.0))]) == TopicStats(32, 50.0)
  {
    var x := SubtopicRow(1, 1, None, 18, 9, None, None, Some(100.0));
    var y := SubtopicRow(2, 1, None, 10, 0, None, None, Some(50.0));
    TotalsAppend([x], [y]);
    TotalsOfSingleton(x);
    TotalsOfSingleton(y);
    assert [x] + [y] == [x, y];
    assert Earned(x) == 50.0;
    RoundIsNearest(9.0 / 28.0 * 100.0, 32);
  }
}
