/** The two stored entities, as rows of the `topics` and `subtopics` tables. */
module Records {
  import opened Basics

  type Id = nat

  /** A row of `topics`. Columns the create handler may leave unset are NULLable. */
  datatype TopicRow = TopicRow(
    id: Id,
    title: Option<string>,
    category: Option<string>,
    notes: Option<string>,
    urls: Option<seq<string>>,
    moneyPer5Reps: real,          // money_per_5_reps
    moneyPer5RepsLocked: bool)    // is_money_per_5_reps_locked

  /** A row of `subtopics`. */
  datatype SubtopicRow = SubtopicRow(
    id: Id,
    topicId: Id,                  // topic_id
    title: Option<string>,
    repsGoal: int,                // reps_goal
    repsCompleted: int,           // reps_completed
    notes: Option<string>,
    urls: Option<seq<string>>,
    goalAmount: Option<real>)     // goal_amount

  /** The intended state of a subtopic: completed reps lie between zero and the goal. Only rep
      logging enforces it; creating or updating a subtopic stores whatever counts it is given. */
  predicate InBounds(st: SubtopicRow) {
    0 <= st.repsCompleted <= st.repsGoal
  }

  predicate AllInBounds(subs: seq<SubtopicRow>) {
    forall i :: 0 <= i < |subs| ==> InBounds(subs[i])
  }

  /** `y` is `x` with at least as many reps completed and nothing else different. */
  predicate RaisedFrom(x: SubtopicRow, y: SubtopicRow) {
    y == x.(repsCompleted := y.repsCompleted) && x.repsCompleted <= y.repsCompleted
  }

  /** `b` is `a` position by position, with completed reps possibly raised. */
  predicate Dominates(a: seq<SubtopicRow>, b: seq<SubtopicRow>) {
    |a| == |b| && forall i :: 0 <= i < |a| ==> RaisedFrom(a[i], b[i])
  }
}
