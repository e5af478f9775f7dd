/** GET /api/dashboard: every topic's rounded earnings and completion, their total, and the
    progress of that total towards the global goal. */
module Dashboard {
  import opened Basics
  import opened JsMath
  import opened Records
  import opened Stats
  import opened Tables
  import Api
  import Reps

  datatype TopicSummary = TopicSummary(
    id: Id,
    title: Option<string>,
    category: Option<string>,
    earnings: int,
    completionPercentage: int)

  datatype DashboardView = DashboardView(
    globalGoal: int,
    currentEarnings: int,
    progress: int,
    topics: seq<TopicSummary>)

  /** A topic reduced to its summary fields, its figures rounded. */
  function Summarize(row: TopicRow, subs: seq<SubtopicRow>): (s: TopicSummary)
    ensures s.id == row.id && s.title == row.title && s.category == row.category
    ensures s.completionPercentage == CalculateTopicStats(subs).completionPercentage
    ensures s.earnings as real - 0.5 <= TotalEarned(subs) < s.earnings as real + 0.5
    ensures AllInBounds(subs) ==> 0 <= s.earnings && 0 <= s.completionPercentage <= 100
  {
    var stats := CalculateTopicStats(subs);
    RoundIsNearest(stats.completionPercentage as real, stats.completionPercentage);
    TopicSummary(row.id, row.title, row.category,
                 Round(stats.earnings), Round(stats.completionPercentage as real))
  }

  function Summaries(topics: seq<TopicRow>, subs: seq<SubtopicRow>): (r: seq<TopicSummary>)
    ensures |r| == |topics|
    ensures forall i :: 0 <= i < |topics| ==> r[i] == Summarize(topics[i], Children(subs, topics[i].id))
  {
    seq(|topics|, i requires 0 <= i < |topics| => Summarize(topics[i], Children(subs, topics[i].id)))
  }

  /** The sum of the rounded per-topic earnings, folded from the left. */
  function SumEarnings(ts: seq<TopicSummary>): (r: int) {
    if |ts| == 0 then 0 else SumEarnings(ts[..|ts| - 1]) + ts[|ts| - 1].earnings
  }

  /** The exact, unrounded earnings of all topics together. */
  function ExactEarnings(topics: seq<TopicRow>, subs: seq<SubtopicRow>): (r: real) {
    if |topics| == 0 then 0.0
    else ExactEarnings(topics[..|topics| - 1], subs) + TotalEarned(Children(subs, topics[|topics| - 1].id))
  }

  function GetDashboard(st: Store): (d: DashboardView)
    ensures d.globalGoal == ParseInt(st.globalGoal)
    ensures |d.topics| == |st.topics|
    ensures forall i :: 0 <= i < |st.topics| ==>
      d.topics[i] == Summarize(st.topics[i], Children(st.subtopics, st.topics[i].id))
    ensures d.currentEarnings == SumEarnings(d.topics)
    ensures d.globalGoal <= 0 ==> d.progress == 0
    ensures d.globalGoal > 0 ==> RoundedPercent(d.progress, d.currentEarnings, d.globalGoal)
    ensures 0 < d.globalGoal == d.currentEarnings ==> d.progress == 100
    ensures AllInBounds(st.subtopics) ==> 0 <= d.currentEarnings && 0 <= d.progress
    ensures AllInBounds(st.subtopics) && d.currentEarnings <= d.globalGoal ==> d.progress <= 100
  {
    var goal := ParseInt(st.globalGoal);
    var topics := Summaries(st.topics, st.subtopics);
    var current := SumEarnings(topics);
    var progress := Percent(current, goal);
    assert AllInBounds(st.subtopics) ==> 0 <= current && 0 <= progress by {
      SummariesNonNegative(st.topics, st.subtopics);
    }
    assert Round(current as real) == current by {
      RoundIsNearest(current as real, current);
    }
    DashboardView(goal, Round(current as real), progress, topics)
  }

  lemma {:induction false} SummariesNonNegative(topics: seq<TopicRow>, subs: seq<SubtopicRow>)
    ensures AllInBounds(subs) ==> 0 <= SumEarnings(Summaries(topics, subs))
  {
    if |topics| > 0 && AllInBounds(subs) {
      var n := |topics| - 1;
      assert Summaries(topics, subs)[..n] == Summaries(topics[..n], subs);
      SummariesNonNegative(topics[..n], subs);
      ChildrenInBounds(subs, topics[n].id);
    }
  }

  /** Rounding each topic before adding makes the total drift from the exact sum by at most
      half a unit per topic. */
  lemma {:induction false} RoundingDrift(topics: seq<TopicRow>, subs: seq<SubtopicRow>)
    ensures ExactEarnings(topics, subs) - |topics| as real / 2.0 <= SumEarnings(Summaries(topics, subs)) as real
    ensures SumEarnings(Summaries(topics, subs)) as real <= ExactEarnings(topics, subs) + |topics| as real / 2.0
  {
    if |topics| > 0 {
      var n := |topics| - 1;
      var all := Summaries(topics, subs);
      assert all[..n] == Summaries(topics[..n], subs);
      RoundingDrift(topics[..n], subs);
      DriftStep(SumEarnings(all[..n]) as real, ExactEarnings(topics[..n], subs),
                all[n].earnings as real, TotalEarned(Children(subs, topics[n].id)), n);
    }
  }

  /** One more rounded term widens the drift bound by one half. */
  lemma DriftStep(c: real, e: real, k: real, x: real, n: nat)
    requires e - n as real / 2.0 <= c <= e + n as real / 2.0
    requires k - 0.5 <= x < k + 0.5
    ensures (e + x) - (n + 1) as real / 2.0 <= c + k <= (e + x) + (n + 1) as real / 2.0
  {
  }

  /** Raising completed reps anywhere never lowers the dashboard's totals. */
  lemma {:induction false} SumEarningsMonotone(topics: seq<TopicRow>, a: seq<SubtopicRow>, b: seq<SubtopicRow>)
    requires Dominates(a, b)
    ensures SumEarnings(Summaries(topics, a)) <= SumEarnings(Summaries(topics, b))
  {
    if |topics| > 0 {
      var n := |topics| - 1;
      var t := topics[n];
      assert Summaries(topics, a)[..n] == Summaries(topics[..n], a);
      assert Summaries(topics, b)[..n] == Summaries(topics[..n], b);
      SumEarningsMonotone(topics[..n], a, b);
      ChildrenDominates(a, b, t.id);
      TopicStatsMonotone(Children(a, t.id), Children(b, t.id));
      RoundMonotone(CalculateTopicStats(Children(a, t.id)).earnings, CalculateTopicStats(Children(b, t.id)).earnings);
    }
  }

  lemma DashboardMonotone(st: Store, st': Store)
    requires st'.topics == st.topics && st'.globalGoal == st.globalGoal
    requires Dominates(st.subtopics, st'.subtopics)
    ensures GetDashboard(st).currentEarnings <= GetDashboard(st').currentEarnings
    ensures GetDashboard(st).progress <= GetDashboard(st').progress
  {
    SumEarningsMonotone(st.topics, st.subtopics, st'.subtopics);
    PercentMonotone(GetDashboard(st).currentEarnings, GetDashboard(st').currentEarnings, ParseInt(st.globalGoal));
  }

  /** Logging a rep never lowers the dashboard's earnings or progress. */
  lemma LoggingARepNeverLowersDashboard(st: Store, subtopicId: Id)
    ensures var st' := Reps.LogReps(st, subtopicId, Some(1.0)).store;
      && GetDashboard(st).currentEarnings <= GetDashboard(st').currentEarnings
      && GetDashboard(st).progress <= GetDashboard(st').progress
  {
    Reps.LogRepsDirection(st, subtopicId);
    DashboardMonotone(st, Reps.LogReps(st, subtopicId, Some(1.0)).store);
  }

  /** A whole-number goal set through the API is the goal the dashboard reads back. */
  lemma GoalReadsBack(st: Store, goal: nat)
    ensures GetDashboard(Api.SetGlobalGoal(st, Some(goal as real)).store).globalGoal == goal
  {
  }
}
