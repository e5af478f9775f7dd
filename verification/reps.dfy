/** POST /api/sub-topics/:subTopicId/reps: the bounded counter behind the whole application.
    A request moves one subtopic's completed reps by exactly one, up or down, and only while
    the count stays within `[0, repsGoal]`. The read, the check and the write are one atomic
    step here. */
module Reps {
  import opened Basics
  import opened Records
  import opened Stats
  import opened Views
  import opened Tables
  import Api

  const InvalidRepsMessage := "Invalid reps value. Must be 1 or -1."
  const RepLimitMessage := "Rep limit reached."
  const RepsSubtopicNotFound := "Subtopic not found"

  /** The step a `reps` field asks for, when it is one of the two accepted numbers. */
  function Delta(reps: Option<real>): (d: Option<int>)
    ensures d.Some? <==> reps == Some(1.0) || reps == Some(-1.0)
    ensures d.Some? ==> reps == Some(d.value as real)
  {
    if reps == Some(1.0) then Some(1)
    else if reps == Some(-1.0) then Some(-1)
    else None
  }

  datatype RepsLogged = RepsLogged(updatedSubtopic: SubtopicView, updatedTopic: TopicView)

  /** Whether the guard lets the request through: a valid step on an existing subtopic that
      keeps its count within the goal. */
  predicate Accepts(st: Store, subtopicId: Id, reps: Option<real>) {
    && Delta(reps).Some?
    && IndexOf(SubtopicIds(st.subtopics), subtopicId).Some?
    && var row := st.subtopics[IndexOf(SubtopicIds(st.subtopics), subtopicId).value];
       0 <= row.repsCompleted + Delta(reps).value <= row.repsGoal
  }

  function LogReps(st: Store, subtopicId: Id, reps: Option<real>): (r: Step<RepsLogged>)
    // a step other than +1 or -1 is refused before anything is looked up
    ensures Delta(reps).None? ==> r == Step(st, Err(400, InvalidRepsMessage))
    ensures Delta(reps).Some? && subtopicId !in SubtopicIds(st.subtopics) ==>
      r == Step(st, Err(404, RepsSubtopicNotFound))
    // a step leaving the bounds is refused, with no change
    ensures Delta(reps).Some? && subtopicId in SubtopicIds(st.subtopics) && !Accepts(st, subtopicId, reps) ==>
      r == Step(st, Err(400, RepLimitMessage))
    // only the addressed subtopic's completed reps can change, by the step, and into bounds
    ensures r.store.topics == st.topics && r.store.nextId == st.nextId && r.store.globalGoal == st.globalGoal
    ensures |r.store.subtopics| == |st.subtopics|
    ensures forall i :: 0 <= i < |st.subtopics| ==>
      || r.store.subtopics[i] == st.subtopics[i]
      || (&& st.subtopics[i].id == subtopicId
          && Delta(reps).Some?
          && r.store.subtopics[i] == st.subtopics[i].(repsCompleted := st.subtopics[i].repsCompleted + Delta(reps).value)
          && InBounds(r.store.subtopics[i]))
    ensures Accepts(st, subtopicId, reps) <==> r.store != st
    // an accepted step is committed before the owning topic is read back, so the only
    // error left is a 500 that keeps the write
    ensures Accepts(st, subtopicId, reps) && r.result.Err? ==> r.result == Err(500, InternalError)
    ensures r.result.Ok? ==>
      && r.result.value.updatedSubtopic.id == subtopicId
      && 0 <= r.result.value.updatedSubtopic.repsCompleted <= r.result.value.updatedSubtopic.repsGoal
    // the answer shows the moved row and its owning topic recomputed over the new table
    ensures r.result.Ok? ==>
      && Accepts(st, subtopicId, reps)
      && var i := IndexOf(SubtopicIds(st.subtopics), subtopicId).value;
         var owner := st.subtopics[i].topicId;
         && owner in TopicIds(st.topics)
         && r.result.value.updatedSubtopic == ToSubtopicView(r.store.subtopics[i])
         && r.result.value.updatedTopic
            == ToTopicView(st.topics[IndexOf(TopicIds(st.topics), owner).value], Children(r.store.subtopics, owner))
  {
    match Delta(reps)
    case None => Step(st, Err(400, InvalidRepsMessage))
    case Some(delta) =>
      match IndexOf(SubtopicIds(st.subtopics), subtopicId)
      case None => Step(st, Err(404, RepsSubtopicNotFound))
      case Some(i) =>
        var row := st.subtopics[i];
        var newReps := row.repsCompleted + delta;
        if newReps < 0 || newReps > row.repsGoal then Step(st, Err(400, RepLimitMessage))
        else
          var row' := row.(repsCompleted := newReps);
          var st' := st.(subtopics := st.subtopics[i := row']);
          SameSubtopicIds(st.subtopics, i, row');
          assert st'.subtopics[i] != st.subtopics[i];
          // the update is written before the owning topic is read back
          match IndexOf(TopicIds(st'.topics), row.topicId)
          case None => Step(st', Err(500, InternalError))
          case Some(k) =>
            Step(st', Ok(RepsLogged(ToSubtopicView(row'),
                                    ToTopicView(st'.topics[k], Children(st'.subtopics, row.topicId)))))
  }

  /** In a well-formed store every accepted step is answered with the new figures (the
      owning topic is always found again), and the store stays well-formed. */
  lemma LogRepsWellFormed(st: Store, subtopicId: Id, reps: Option<real>)
    requires WellFormed(st)
    ensures LogReps(st, subtopicId, reps).result.Ok? <==> Accepts(st, subtopicId, reps)
    ensures WellFormed(LogReps(st, subtopicId, reps).store)
  {
    if Accepts(st, subtopicId, reps) {
      var i := IndexOf(SubtopicIds(st.subtopics), subtopicId).value;
      var row := st.subtopics[i];
      AcceptedStep(st, subtopicId, reps);
      MovedBack(st, i, Delta(reps).value);
      assert row.topicId in TopicIds(st.topics);
    }
  }

  /** After a logged rep, reading the subtopic or its topic back answers exactly what the
      request answered. */
  lemma ReadAfterLogReps(st: Store, subtopicId: Id, reps: Option<real>)
    ensures var r := LogReps(st, subtopicId, reps);
      r.result.Ok? ==>
        && Api.GetSubtopic(r.store, subtopicId) == Ok(r.result.value.updatedSubtopic)
        && Api.GetTopic(r.store, r.result.value.updatedTopic.id) == Ok(r.result.value.updatedTopic)
  {
    if Accepts(st, subtopicId, reps) {
      var i := IndexOf(SubtopicIds(st.subtopics), subtopicId).value;
      AcceptedStep(st, subtopicId, reps);
      MovedBack(st, i, Delta(reps).value);
    }
  }

  /** Rep logging preserves the bounds invariant of every subtopic. */
  lemma LogRepsKeepsBounds(st: Store, subtopicId: Id, reps: Option<real>)
    requires AllInBounds(st.subtopics)
    ensures AllInBounds(LogReps(st, subtopicId, reps).store.subtopics)
  {
    var st' := LogReps(st, subtopicId, reps).store;
    forall i | 0 <= i < |st'.subtopics| ensures InBounds(st'.subtopics[i]) {
      assert InBounds(st.subtopics[i]);
    }
  }

  /** The store with the completed reps of row `i` moved by `d`. */
  function Moved(st: Store, i: nat, d: int): (r: Store)
    requires i < |st.subtopics|
  {
    var row := st.subtopics[i];
    st.(subtopics := st.subtopics[i := row.(repsCompleted := row.repsCompleted + d)])
  }

  /** The store an accepted step leaves: the addressed row moved by the step. */
  lemma AcceptedStep(st: Store, subtopicId: Id, reps: Option<real>)
    requires Accepts(st, subtopicId, reps)
    ensures LogReps(st, subtopicId, reps).store
      == Moved(st, IndexOf(SubtopicIds(st.subtopics), subtopicId).value, Delta(reps).value)
  {
  }

  lemma MovedBack(st: Store, i: nat, d: int)
    requires i < |st.subtopics|
    ensures SubtopicIds(Moved(st, i, d).subtopics) == SubtopicIds(st.subtopics)
    ensures Moved(Moved(st, i, d), i, -d) == st
  {
    var row := st.subtopics[i];
    SameSubtopicIds(st.subtopics, i, row.(repsCompleted := row.repsCompleted + d));
    assert st.subtopics[i := row] == st.subtopics;
  }

  /** Within the bounds invariant, a logged rep is undone by logging -1, and a removed rep
      is restored by logging +1. */
  lemma LogRepsUndo(st: Store, subtopicId: Id, reps: Option<real>)
    requires AllInBounds(st.subtopics)
    requires Accepts(st, subtopicId, reps)
    ensures var back := if reps == Some(1.0) then Some(-1.0) else Some(1.0);
      && Accepts(LogReps(st, subtopicId, reps).store, subtopicId, back)
      && LogReps(LogReps(st, subtopicId, reps).store, subtopicId, back).store == st
  {
    var back := if reps == Some(1.0) then Some(-1.0) else Some(1.0);
    var d := Delta(reps).value;
    assert Delta(back).value == -d;
    var i := IndexOf(SubtopicIds(st.subtopics), subtopicId).value;
    assert InBounds(st.subtopics[i]);
    AcceptedStep(st, subtopicId, reps);
    var st' := Moved(st, i, d);
    MovedBack(st, i, d);
    assert IndexOf(SubtopicIds(st'.subtopics), subtopicId).value == i;
    assert Accepts(st', subtopicId, back);
    AcceptedStep(st', subtopicId, back);
  }

  /** Logging +1 only raises completed reps; logging -1 only lowers them. */
  lemma LogRepsDirection(st: Store, subtopicId: Id)
    ensures Dominates(st.subtopics, LogReps(st, subtopicId, Some(1.0)).store.subtopics)
    ensures Dominates(LogReps(st, subtopicId, Some(-1.0)).store.subtopics, st.subtopics)
  {
    var up := LogReps(st, subtopicId, Some(1.0)).store.subtopics;
    var down := LogReps(st, subtopicId, Some(-1.0)).store.subtopics;
    forall i | 0 <= i < |st.subtopics| ensures RaisedFrom(st.subtopics[i], up[i]) && RaisedFrom(down[i], st.subtopics[i]) {
    }
  }

  /** Logging a rep never lowers, and removing one never raises, any topic's earnings or
      completion. */
  lemma LogRepNeverLowersTopics(st: Store, subtopicId: Id, t: TopicRow)
    ensures var before := Children(st.subtopics, t.id);
      var after := Children(LogReps(st, subtopicId, Some(1.0)).store.subtopics, t.id);
      && ToTopicView(t, before).earnings <= ToTopicView(t, after).earnings
      && ToTopicView(t, before).completionPercentage <= ToTopicView(t, after).completionPercentage
    ensures var before := Children(st.subtopics, t.id);
      var after := Children(LogReps(st, subtopicId, Some(-1.0)).store.subtopics, t.id);
      && ToTopicView(t, after).earnings <= ToTopicView(t, before).earnings
      && ToTopicView(t, after).completionPercentage <= ToTopicView(t, before).completionPercentage
  {
    LogRepsDirection(st, subtopicId);
    var up := LogReps(st, subtopicId, Some(1.0)).store.subtopics;
    var down := LogReps(st, subtopicId, Some(-1.0)).store.subtopics;
    ViewMonotone(t, Children(st.subtopics, t.id), Children(up, t.id), st.subtopics, up);
    ViewMonotone(t, Children(down, t.id), Children(st.subtopics, t.id), down, st.subtopics);
  }

  lemma ViewMonotone(t: TopicRow, a: seq<SubtopicRow>, b: seq<SubtopicRow>, all: seq<SubtopicRow>, all': seq<SubtopicRow>)
    requires Dominates(all, all') && a == Children(all, t.id) && b == Children(all', t.id)
    ensures ToTopicView(t, a).earnings <= ToTopicView(t, b).earnings
    ensures ToTopicView(t, a).completionPercentage <= ToTopicView(t, b).completionPercentage
  {
    ChildrenDominates(all, all', t.id);
    TopicStatsMonotone(a, b);
    JsMath.RoundMonotone(CalculateTopicStats(a).earnings, CalculateTopicStats(b).earnings);
    JsMath.RoundMonotone(CalculateTopicStats(a).completionPercentage as real, CalculateTopicStats(b).completionPercentage as real);
  }

  /** Three refusals: a step of 2, a step below zero, and a step past the goal. */
  lemma RepsRefusals(st: Store, subtopicId: Id, i: nat)
    requires i < |st.subtopics| && st.subtopics[i].id == subtopicId && Distinct(SubtopicIds(st.subtopics))
    ensures LogReps(st, subtopicId, Some(2.0)) == Step(st, Err(400, InvalidRepsMessage))
    ensures st.subtopics[i].repsCompleted == 0 ==>
      LogReps(st, subtopicId, Some(-1.0)) == Step(st, Err(400, RepLimitMessage))
    ensures st.subtopics[i].repsCompleted == st.subtopics[i].repsGoal ==>
      LogReps(st, subtopicId, Some(1.0)) == Step(st, Err(400, RepLimitMessage))
  {
    var ids := SubtopicIds(st.subtopics);
    assert ids[i] == subtopicId;
    var k := IndexOf(ids, subtopicId).value;
    assert k == i;
  }
}
