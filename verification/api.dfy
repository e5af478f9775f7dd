/** The read, create and update endpoints over the store (everything but rep logging and the
    dashboard). Each mutating endpoint either answers with an error and leaves the store as
    it was, or applies exactly its own write. */
module Api {
  import opened Basics
  import opened Records
  import opened Views
  import opened Requests
  import opened Tables

  const InvalidGoalMessage := "Invalid goal amount"

  /** GET /api/topics/:topicId */
  function GetTopic(st: Store, topicId: Id): (r: Result<TopicView>)
    ensures r.Ok? <==> topicId in TopicIds(st.topics)
    ensures r.Err? ==> r == Err(404, TopicNotFound)
    ensures r.Ok? ==>
      var i := IndexOf(TopicIds(st.topics), topicId).value;
      && st.topics[i].id == topicId
      && r.value == ToTopicView(st.topics[i], Children(st.subtopics, topicId))
  {
    match IndexOf(TopicIds(st.topics), topicId)
    case None => Err(404, TopicNotFound)
    case Some(i) => Ok(ToTopicView(st.topics[i], Children(st.subtopics, topicId)))
  }

  /** GET /api/sub-topics/:subTopicId */
  function GetSubtopic(st: Store, subtopicId: Id): (r: Result<SubtopicView>)
    ensures r.Ok? <==> subtopicId in SubtopicIds(st.subtopics)
    ensures r.Err? ==> r == Err(404, SubtopicNotFound)
    ensures r.Ok? ==>
      var i := IndexOf(SubtopicIds(st.subtopics), subtopicId).value;
      && st.subtopics[i].id == subtopicId
      && r.value == ToSubtopicView(st.subtopics[i])
  {
    match IndexOf(SubtopicIds(st.subtopics), subtopicId)
    case None => Err(404, SubtopicNotFound)
    case Some(i) => Ok(ToSubtopicView(st.subtopics[i]))
  }

  /** POST /api/topics: appends a fresh row and answers with its view, which has no
      subtopics and so no earnings and no completion yet. */
  function CreateTopic(st: Store, b: TopicBody): (r: Step<TopicView>)
    ensures r.result.Ok?
    ensures r.store.subtopics == st.subtopics && r.store.globalGoal == st.globalGoal
    ensures |r.store.topics| == |st.topics| + 1 && r.store.topics[..|st.topics|] == st.topics
    ensures WellFormed(st) ==> r.result.value.id !in TopicIds(st.topics)
    ensures r.store.nextId == st.nextId + 1
    ensures r.store.topics[|st.topics|] == NewTopicRow(st.nextId, b)
    ensures r.result.value == ToTopicView(NewTopicRow(st.nextId, b), [])
    ensures r.result.value.id == r.store.topics[|st.topics|].id
    ensures r.result.value.earnings == 0 && r.result.value.completionPercentage == 0
    ensures r.result.value.subtopics == []
    ensures WellFormed(st) ==> WellFormed(r.store)
  {
    var row := NewTopicRow(st.nextId, b);
    var st' := st.(topics := st.topics + [row], nextId := st.nextId + 1);
    assert TopicIds(st'.topics) == TopicIds(st.topics) + [row.id];
    assert st'.topics[..|st.topics|] == st.topics;
    Step(st', Ok(ToTopicView(row, [])))
  }

  /** PUT /api/topics/:topicId: only the addressed row changes, as the partial update says. */
  function UpdateTopic(st: Store, topicId: Id, b: TopicBody): (r: Step<TopicView>)
    ensures r.result.Err? <==> topicId !in TopicIds(st.topics)
    ensures r.result.Err? ==> r == Step(st, Err(404, TopicNotFound))
    ensures r.store.subtopics == st.subtopics && r.store.nextId == st.nextId && r.store.globalGoal == st.globalGoal
    ensures |r.store.topics| == |st.topics|
    ensures forall j :: 0 <= j < |st.topics| ==>
      || r.store.topics[j] == st.topics[j]
      || (st.topics[j].id == topicId && r.store.topics[j] == PatchTopic(st.topics[j], b))
    // the first row with that id is the one written, and the answer is its new view
    ensures r.result.Ok? ==>
      var i := IndexOf(TopicIds(st.topics), topicId).value;
      && st.topics[i].id == topicId
      && r.store.topics == st.topics[i := PatchTopic(st.topics[i], b)]
      && r.result.value == ToTopicView(PatchTopic(st.topics[i], b), Children(st.subtopics, topicId))
    ensures WellFormed(st) ==> WellFormed(r.store)
  {
    match IndexOf(TopicIds(st.topics), topicId)
    case None => Step(st, Err(404, TopicNotFound))
    case Some(i) =>
      var row := PatchTopic(st.topics[i], b);
      SameTopicIds(st.topics, i, row);
      Step(st.(topics := st.topics[i := row]), Ok(ToTopicView(row, Children(st.subtopics, topicId))))
  }

  /** POST /api/topics/:topicId/sub-topics: refuses an unknown topic, otherwise appends a
      fresh row owned by that topic. */
  function CreateSubtopic(st: Store, topicId: Id, b: SubtopicBody): (r: Step<SubtopicView>)
    ensures r.result.Err? <==> topicId !in TopicIds(st.topics)
    ensures r.result.Err? ==> r == Step(st, Err(404, TopicNotFound))
    ensures r.store.topics == st.topics && r.store.globalGoal == st.globalGoal
    ensures r.result.Ok? ==>
      && |r.store.subtopics| == |st.subtopics| + 1
      && r.store.subtopics[..|st.subtopics|] == st.subtopics
      && r.store.subtopics[|st.subtopics|] == NewSubtopicRow(st.nextId, topicId, b)
      && r.store.nextId == st.nextId + 1
      && r.result.value == ToSubtopicView(NewSubtopicRow(st.nextId, topicId, b))
    ensures WellFormed(st) && r.result.Ok? ==> r.result.value.id !in SubtopicIds(st.subtopics)
    ensures WellFormed(st) ==> WellFormed(r.store)
  {
    if topicId !in TopicIds(st.topics) then Step(st, Err(404, TopicNotFound))
    else
      var row := NewSubtopicRow(st.nextId, topicId, b);
      var st' := st.(subtopics := st.subtopics + [row], nextId := st.nextId + 1);
      assert SubtopicIds(st'.subtopics) == SubtopicIds(st.subtopics) + [row.id];
      assert st'.subtopics[..|st.subtopics|] == st.subtopics;
      Step(st', Ok(ToSubtopicView(row)))
  }

  /** PUT /api/sub-topics/:subTopicId: only the addressed row changes, as the partial update
      says. Nothing here keeps completed reps within the goal. */
  function UpdateSubtopic(st: Store, subtopicId: Id, b: SubtopicBody): (r: Step<SubtopicView>)
    ensures r.result.Err? <==> subtopicId !in SubtopicIds(st.subtopics)
    ensures r.result.Err? ==> r == Step(st, Err(404, SubtopicNotFound))
    ensures r.store.topics == st.topics && r.store.nextId == st.nextId && r.store.globalGoal == st.globalGoal
    ensures |r.store.subtopics| == |st.subtopics|
    ensures forall j :: 0 <= j < |st.subtopics| ==>
      || r.store.subtopics[j] == st.subtopics[j]
      || (st.subtopics[j].id == subtopicId && r.store.subtopics[j] == PatchSubtopic(st.subtopics[j], b))
    // the first row with that id is the one written, and the answer is its new view
    ensures r.result.Ok? ==>
      var i := IndexOf(SubtopicIds(st.subtopics), subtopicId).value;
      && st.subtopics[i].id == subtopicId
      && r.store.subtopics == st.subtopics[i := PatchSubtopic(st.subtopics[i], b)]
      && r.result.value == ToSubtopicView(PatchSubtopic(st.subtopics[i], b))
    ensures WellFormed(st) ==> WellFormed(r.store)
  {
    match IndexOf(SubtopicIds(st.subtopics), subtopicId)
    case None => Step(st, Err(404, SubtopicNotFound))
    case Some(i) =>
      var row := PatchSubtopic(st.subtopics[i], b);
      SameSubtopicIds(st.subtopics, i, row);
      Step(st.(subtopics := st.subtopics[i := row]), Ok(ToSubtopicView(row)))
  }

  /** PUT /api/dashboard/global-goal: a present, non-negative number replaces the goal;
      anything else is refused. */
  function SetGlobalGoal(st: Store, goal: Option<real>): (r: Step<real>)
    ensures r.result.Ok? <==> goal.Some? && goal.value >= 0.0
    ensures r.result.Err? ==> r == Step(st, Err(400, InvalidGoalMessage))
    ensures r.result.Ok? ==> r.store == st.(globalGoal := goal.value) && r.result.value == goal.value
    ensures WellFormed(st) ==> WellFormed(r.store)
  {
    if goal.None? || goal.value < 0.0 then Step(st, Err(400, InvalidGoalMessage))
    else Step(st.(globalGoal := goal.value), Ok(goal.value))
  }

  /** Reading a topic back after an update answers exactly what the update answered. */
  lemma ReadAfterUpdateTopic(st: Store, topicId: Id, b: TopicBody)
    ensures GetTopic(UpdateTopic(st, topicId, b).store, topicId) == UpdateTopic(st, topicId, b).result
  {
    if topicId in TopicIds(st.topics) {
      var i := IndexOf(TopicIds(st.topics), topicId).value;
      SameTopicIds(st.topics, i, PatchTopic(st.topics[i], b));
    }
  }

  /** Reading a subtopic back after an update answers exactly what the update answered. */
  lemma ReadAfterUpdateSubtopic(st: Store, subtopicId: Id, b: SubtopicBody)
    ensures GetSubtopic(UpdateSubtopic(st, subtopicId, b).store, subtopicId)
         == UpdateSubtopic(st, subtopicId, b).result
  {
    if subtopicId in SubtopicIds(st.subtopics) {
      var i := IndexOf(SubtopicIds(st.subtopics), subtopicId).value;
      SameSubtopicIds(st.subtopics, i, PatchSubtopic(st.subtopics[i], b));
    }
  }

  /** A topic has no subtopics while its id is not yet in use. */
  lemma NoChildrenYet(st: Store)
    requires WellFormed(st)
    ensures Children(st.subtopics, st.nextId) == []
  {
    forall i | 0 <= i < |st.subtopics| ensures st.subtopics[i].topicId != st.nextId {
      var k :| 0 <= k < |st.topics| && TopicIds(st.topics)[k] == st.subtopics[i].topicId;
    }
    ChildrenOfNone(st.subtopics, st.nextId);
  }

  /** In a well-formed store a created topic reads back as the view its creation answered. */
  lemma ReadAfterCreateTopic(st: Store, b: TopicBody)
    requires WellFormed(st)
    ensures GetTopic(CreateTopic(st, b).store, st.nextId) == CreateTopic(st, b).result
  {
    var st' := CreateTopic(st, b).store;
    var ids := TopicIds(st.topics);
    assert TopicIds(st'.topics) == ids + [st.nextId];
    assert st.nextId !in ids;
    IndexOfAppended(ids, st.nextId);
    NoChildrenYet(st);
  }

  /** In a well-formed store a created subtopic reads back as the view its creation answered. */
  lemma ReadAfterCreateSubtopic(st: Store, topicId: Id, b: SubtopicBody)
    requires WellFormed(st)
    ensures CreateSubtopic(st, topicId, b).result.Ok? ==>
      GetSubtopic(CreateSubtopic(st, topicId, b).store, st.nextId) == CreateSubtopic(st, topicId, b).result
  {
    if topicId in TopicIds(st.topics) {
      var st' := CreateSubtopic(st, topicId, b).store;
      var ids := SubtopicIds(st.subtopics);
      assert SubtopicIds(st'.subtopics) == ids + [st.nextId];
      assert st.nextId !in ids;
      IndexOfAppended(ids, st.nextId);
    }
  }

  /** A value found only at the end of a list is found there. */
  lemma IndexOfAppended(ids: seq<Id>, x: Id)
    requires x !in ids
    ensures IndexOf(ids + [x], x) == Some(|ids|)
  {
    assert (ids + [x])[..|ids|] == ids;
  }
}
