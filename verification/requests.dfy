/** Request bodies and how the create and update handlers turn them into rows.

    A body field is `None` when the client left it out (JavaScript `undefined`). Update
    handlers copy a field when it is present, except `title` and `category`, which are
    copied only when truthy, so an empty string there is ignored. Create handlers fill
    absent fields with `||` defaults, under which a zero number also counts as absent. */
module Requests {
  import opened Basics
  import opened Records
  import opened Views

  const DefaultMoneyPer5Reps: real := 50.0
  const DefaultRepsGoal: int := 18

  datatype TopicBody = TopicBody(
    title: Option<string>,
    category: Option<string>,
    notes: Option<string>,
    urls: Option<seq<string>>,
    moneyPer5Reps: Option<real>,
    moneyPer5RepsLocked: Option<bool>)

  datatype SubtopicBody = SubtopicBody(
    title: Option<string>,
    repsGoal: Option<int>,
    repsCompleted: Option<int>,
    notes: Option<string>,
    urls: Option<seq<string>>,
    goalAmount: Option<real>)

  /** JavaScript truthiness of an optional string: present and not empty. */
  predicate Truthy(s: Option<string>) {
    s.Some? && s.value != ""
  }

  /** The row inserted for a new topic. */
  function NewTopicRow(id: Id, b: TopicBody): (r: TopicRow)
    ensures r.id == id && r.title == b.title && r.category == b.category
    ensures r.notes == Some(b.notes.GetOr("")) && r.urls == Some(b.urls.GetOr([]))
    ensures r.moneyPer5Reps != 0.0
    ensures b.moneyPer5Reps.Some? && b.moneyPer5Reps.value != 0.0 ==> r.moneyPer5Reps == b.moneyPer5Reps.value
    ensures b.moneyPer5Reps.None? || b.moneyPer5Reps == Some(0.0) ==> r.moneyPer5Reps == DefaultMoneyPer5Reps
    ensures r.moneyPer5RepsLocked <==> b.moneyPer5RepsLocked == Some(true)
  {
    TopicRow(
      id, b.title, b.category,
      Some(if Truthy(b.notes) then b.notes.value else ""),
      Some(b.urls.GetOr([])),
      if b.moneyPer5Reps.Some? && b.moneyPer5Reps.value != 0.0
      then b.moneyPer5Reps.value else DefaultMoneyPer5Reps,
      b.moneyPer5RepsLocked == Some(true))
  }

  /** The row inserted for a new subtopic of topic `topicId`. */
  function NewSubtopicRow(id: Id, topicId: Id, b: SubtopicBody): (r: SubtopicRow)
    ensures r.id == id && r.topicId == topicId && r.title == b.title && r.goalAmount == b.goalAmount
    ensures r.notes == Some(b.notes.GetOr("")) && r.urls == Some(b.urls.GetOr([]))
    ensures r.repsGoal != 0
    ensures b.repsGoal.Some? && b.repsGoal.value != 0 ==> r.repsGoal == b.repsGoal.value
    ensures b.repsGoal.None? || b.repsGoal == Some(0) ==> r.repsGoal == DefaultRepsGoal
    ensures r.repsCompleted == b.repsCompleted.GetOr(0)
  {
    SubtopicRow(
      id, topicId, b.title,
      if b.repsGoal.Some? && b.repsGoal.value != 0 then b.repsGoal.value else DefaultRepsGoal,
      if b.repsCompleted.Some? && b.repsCompleted.value != 0 then b.repsCompleted.value else 0,
      Some(if Truthy(b.notes) then b.notes.value else ""),
      Some(b.urls.GetOr([])),
      b.goalAmount)
  }

  /** A topic row after a partial update with body `b`. */
  function PatchTopic(row: TopicRow, b: TopicBody): (r: TopicRow)
    ensures r.id == row.id
    // a supplied field takes the supplied value ...
    ensures Truthy(b.title) ==> r.title == b.title
    ensures Truthy(b.category) ==> r.category == b.category
    ensures b.notes.Some? ==> r.notes == b.notes
    ensures b.urls.Some? ==> r.urls == b.urls
    ensures b.moneyPer5Reps.Some? ==> r.moneyPer5Reps == b.moneyPer5Reps.value
    ensures b.moneyPer5RepsLocked.Some? ==> r.moneyPer5RepsLocked == b.moneyPer5RepsLocked.value
    // ... and every other field keeps its old value
    ensures !Truthy(b.title) ==> r.title == row.title
    ensures !Truthy(b.category) ==> r.category == row.category
    ensures b.notes.None? ==> r.notes == row.notes
    ensures b.urls.None? ==> r.urls == row.urls
    ensures b.moneyPer5Reps.None? ==> r.moneyPer5Reps == row.moneyPer5Reps
    ensures b.moneyPer5RepsLocked.None? ==> r.moneyPer5RepsLocked == row.moneyPer5RepsLocked
  {
    TopicRow(
      row.id,
      if Truthy(b.title) then b.title else row.title,
      if Truthy(b.category) then b.category else row.category,
      if b.notes.Some? then b.notes else row.notes,
      if b.urls.Some? then b.urls else row.urls,
      b.moneyPer5Reps.GetOr(row.moneyPer5Reps),
      b.moneyPer5RepsLocked.GetOr(row.moneyPer5RepsLocked))
  }

  /** A subtopic row after a partial update with body `b`. */
  function PatchSubtopic(row: SubtopicRow, b: SubtopicBody): (r: SubtopicRow)
    ensures r.id == row.id && r.topicId == row.topicId
    // a supplied field takes the supplied value ...
    ensures Truthy(b.title) ==> r.title == b.title
    ensures b.repsGoal.Some? ==> r.repsGoal == b.repsGoal.value
    ensures b.repsCompleted.Some? ==> r.repsCompleted == b.repsCompleted.value
    ensures b.notes.Some? ==> r.notes == b.notes
    ensures b.urls.Some? ==> r.urls == b.urls
    ensures b.goalAmount.Some? ==> r.goalAmount == b.goalAmount
    // ... and every other field keeps its old value
    ensures !Truthy(b.title) ==> r.title == row.title
    ensures b.repsGoal.None? ==> r.repsGoal == row.repsGoal
    ensures b.repsCompleted.None? ==> r.repsCompleted == row.repsCompleted
    ensures b.notes.None? ==> r.notes == row.notes
    ensures b.urls.None? ==> r.urls == row.urls
    ensures b.goalAmount.None? ==> r.goalAmount == row.goalAmount
  {
    SubtopicRow(
      row.id, row.topicId,
      if Truthy(b.title) then b.title else row.title,
      b.repsGoal.GetOr(row.repsGoal),
      b.repsCompleted.GetOr(row.repsCompleted),
      if b.notes.Some? then b.notes else row.notes,
      if b.urls.Some? then b.urls else row.urls,
      if b.goalAmount.Some? then b.goalAmount else row.goalAmount)
  }

  /** The body that has the effect of `p` followed by `q`: `q`'s fields where it supplies them. */
  function OverlayTopicBody(p: TopicBody, q: TopicBody): (r: TopicBody) {
    TopicBody(
      if Truthy(q.title) then q.title else p.title,
      if Truthy(q.category) then q.category else p.category,
      if q.notes.Some? then q.notes else p.notes,
      if q.urls.Some? then q.urls else p.urls,
      if q.moneyPer5Reps.Some? then q.moneyPer5Reps else p.moneyPer5Reps,
      if q.moneyPer5RepsLocked.Some? then q.moneyPer5RepsLocked else p.moneyPer5RepsLocked)
  }

  /** Two successive partial updates amount to one, and repeating an update changes nothing. */
  lemma PatchTopicComposes(row: TopicRow, p: TopicBody, q: TopicBody)
    ensures PatchTopic(PatchTopic(row, p), q) == PatchTopic(row, OverlayTopicBody(p, q))
    ensures PatchTopic(PatchTopic(row, p), p) == PatchTopic(row, p)
  {
    assert OverlayTopicBody(p, p) == p;
  }

  /** Updating only the notes leaves title, category, urls and both rate fields as they were;
      an empty title or category is ignored while empty notes are written. */
  lemma NotesOnlyPatch(row: TopicRow, notes: string, ignored: bool)
    ensures var blank := if ignored then Some("") else None;
      PatchTopic(row, TopicBody(blank, blank, Some(notes), None, None, None)) == row.(notes := Some(notes))
  {
  }

  /** The lock on the rate is not a guard: a supplied rate replaces the stored one even on a
      locked topic. */
  lemma RateLockNotEnforced(row: TopicRow, rate: real)
    requires row.moneyPer5RepsLocked
    ensures PatchTopic(row, TopicBody(None, None, None, None, Some(rate), None)).moneyPer5Reps == rate
    ensures PatchTopic(row, TopicBody(None, None, None, None, Some(rate), None)).moneyPer5RepsLocked
  {
  }

  /** A subtopic body that writes back every field of a view. */
  function EchoBody(v: SubtopicView): (r: SubtopicBody) {
    SubtopicBody(v.title, Some(v.repsGoal), Some(v.repsCompleted), Some(v.notes), Some(v.urls), v.goalAmount)
  }

  /** Reading a subtopic and writing every shown field back leaves the row as it was,
      provided its notes and urls were not NULL (those come back as empty values). */
  lemma EchoedSubtopicIsUnchanged(row: SubtopicRow)
    requires row.notes.Some? && row.urls.Some?
    ensures PatchSubtopic(row, EchoBody(ToSubtopicView(row))) == row
  {
  }

  lemma EchoedNullNotesBecomeEmpty(row: SubtopicRow)
    requires row.notes.None?
    ensures PatchSubtopic(row, EchoBody(ToSubtopicView(row))).notes == Some("")
  {
  }

  /** Sending the body a topic was created with as an update changes nothing, unless it
      supplied a zero rate, which creation replaced by the default. */
  lemma TopicRepostIsNoOp(id: Id, b: TopicBody)
    ensures b.moneyPer5Reps != Some(0.0) ==> PatchTopic(NewTopicRow(id, b), b) == NewTopicRow(id, b)
    ensures b.moneyPer5Reps == Some(0.0) ==> PatchTopic(NewTopicRow(id, b), b).moneyPer5Reps == 0.0
  {
  }

  /** Likewise for subtopics, where a zero reps goal is the exception. */
  lemma SubtopicRepostIsNoOp(id: Id, topicId: Id, b: SubtopicBody)
    ensures b.repsGoal != Some(0) ==> PatchSubtopic(NewSubtopicRow(id, topicId, b), b) == NewSubtopicRow(id, topicId, b)
    ensures b.repsGoal == Some(0) ==> PatchSubtopic(NewSubtopicRow(id, topicId, b), b).repsGoal == 0
  {
  }

  /** Neither creation nor update enforces `0 <= repsCompleted <= repsGoal`. */
  lemma WritesCanBreakRepBounds(row: SubtopicRow)
    requires InBounds(row)
    ensures !InBounds(NewSubtopicRow(row.id, row.topicId, SubtopicBody(None, None, Some(30), None, None, None)))
    ensures !InBounds(PatchSubtopic(row, SubtopicBody(None, None, Some(row.repsGoal + 1), None, None, None)))
  {
  }
}
