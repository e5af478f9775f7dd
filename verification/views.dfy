/** The client-facing shapes the server answers with, built from stored rows. */
module Views {
  import opened Basics
  import opened JsMath
  import opened Records
  import opened Stats

  datatype SubtopicView = SubtopicView(
    id: Id,
    title: Option<string>,
    repsCompleted: int,
    repsGoal: int,
    notes: string,
    urls: seq<string>,
    goalAmount: Option<real>)

  datatype TopicView = TopicView(
    id: Id,
    title: Option<string>,
    category: Option<string>,
    earnings: int,
    completionPercentage: int,
    notes: string,
    urls: seq<string>,
    moneyPer5Reps: real,
    moneyPer5RepsLocked: bool,
    subtopics: seq<SubtopicView>)

  /** A subtopic as shown to clients: NULL notes and urls read as empty, and the owning
      topic is not shown. */
  function ToSubtopicView(row: SubtopicRow): (v: SubtopicView)
    ensures v.id == row.id && v.title == row.title && v.goalAmount == row.goalAmount
    ensures v.repsCompleted == row.repsCompleted && v.repsGoal == row.repsGoal
    ensures row.notes.Some? ==> v.notes == row.notes.value
    ensures row.notes.None? ==> v.notes == ""
    ensures row.urls.Some? ==> v.urls == row.urls.value
    ensures row.urls.None? ==> v.urls == []
  {
    SubtopicView(row.id, row.title, row.repsCompleted, row.repsGoal,
                 row.notes.GetOr(""), row.urls.GetOr([]), row.goalAmount)
  }

  /** Apart from the owning topic, a subtopic view loses only the difference between a
      NULL and an empty notes or urls column. */
  lemma SubtopicViewLosesOnlyDefaults(a: SubtopicRow, b: SubtopicRow)
    requires ToSubtopicView(a) == ToSubtopicView(b) && a.topicId == b.topicId
    ensures a.notes.GetOr("") == b.notes.GetOr("") && a.urls.GetOr([]) == b.urls.GetOr([])
    ensures a.notes.Some? && b.notes.Some? && a.urls.Some? && b.urls.Some? ==> a == b
  {
  }

  /** A topic as shown to clients, with its subtopics and its figures rounded. */
  function ToTopicView(row: TopicRow, subs: seq<SubtopicRow>): (v: TopicView)
    ensures v.id == row.id && v.title == row.title && v.category == row.category
    ensures v.moneyPer5Reps == row.moneyPer5Reps && v.moneyPer5RepsLocked == row.moneyPer5RepsLocked
    ensures row.notes.Some? ==> v.notes == row.notes.value
    ensures row.notes.None? ==> v.notes == ""
    ensures row.urls.Some? ==> v.urls == row.urls.value
    ensures row.urls.None? ==> v.urls == []
    ensures v.completionPercentage == CalculateTopicStats(subs).completionPercentage
    ensures |v.subtopics| == |subs|
    ensures forall i :: 0 <= i < |subs| ==> v.subtopics[i] == ToSubtopicView(subs[i])
    ensures v.earnings as real - 0.5 <= TotalEarned(subs) < v.earnings as real + 0.5
    ensures |subs| == 0 ==> v.earnings == 0 && v.completionPercentage == 0
    ensures TotalGoal(subs) <= 0 ==> v.completionPercentage == 0
    ensures AllInBounds(subs) ==> 0 <= v.earnings && 0 <= v.completionPercentage <= 100
  {
    var stats := CalculateTopicStats(subs);
    RoundIsNearest(stats.completionPercentage as real, stats.completionPercentage);
    RoundIsNearest(0.0, 0);
    TopicView(
      row.id, row.title, row.category,
      Round(stats.earnings),
      Round(stats.completionPercentage as real),
      row.notes.GetOr(""), row.urls.GetOr([]),
      row.moneyPer5Reps, row.moneyPer5RepsLocked,
      seq(|subs|, i requires 0 <= i < |subs| => ToSubtopicView(subs[i])))
  }
}
