/** The persistent state behind the API: both tables, in creation order, plus the global goal. */
module Tables {
  import opened Basics
  import opened Records

  /** `nextId` stands for the store's id generator: every id in use lies below it. */
  datatype Store = Store(
    topics: seq<TopicRow>,
    subtopics: seq<SubtopicRow>,
    nextId: Id,
    globalGoal: real)             // global_settings.setting_value for 'global_goal'

  /** What a mutating request leaves behind: the new state and the answer. */
  datatype Step<+T> = Step(store: Store, result: Result<T>)

  const TopicNotFound := "Topic not found"
  const SubtopicNotFound := "Sub-topic not found"
  const InternalError := "Internal server error"

  function TopicIds(rows: seq<TopicRow>): (ids: seq<Id>)
    ensures |ids| == |rows| && forall i :: 0 <= i < |rows| ==> ids[i] == rows[i].id
  {
    seq(|rows|, i requires 0 <= i < |rows| => rows[i].id)
  }

  function SubtopicIds(rows: seq<SubtopicRow>): (ids: seq<Id>)
    ensures |ids| == |rows| && forall i :: 0 <= i < |rows| ==> ids[i] == rows[i].id
  {
    seq(|rows|, i requires 0 <= i < |rows| => rows[i].id)
  }

  /** Ids are unique and below the generator, and every subtopic belongs to an existing topic. */
  predicate WellFormed(st: Store) {
    && Distinct(TopicIds(st.topics))
    && Distinct(SubtopicIds(st.subtopics))
    && (forall i :: 0 <= i < |st.topics| ==> st.topics[i].id < st.nextId)
    && (forall i :: 0 <= i < |st.subtopics| ==> st.subtopics[i].id < st.nextId)
    && (forall i :: 0 <= i < |st.subtopics| ==> st.subtopics[i].topicId in TopicIds(st.topics))
  }

  /** The subtopics of topic `topicId`: the embedded `subtopics (*)` of a query. Each row of
      the topic appears as often as in the table and no other row appears; the model lists
      them in table order. */
  function Children(subs: seq<SubtopicRow>, topicId: Id): (r: seq<SubtopicRow>)
    ensures |r| <= |subs|
    ensures forall x :: x in r <==> x in subs && x.topicId == topicId
  {
    if |subs| == 0 then []
    else
      var last := subs[|subs| - 1];
      var init := subs[..|subs| - 1];
      var tail := if last.topicId == topicId then [last] else [];
      assert subs == init + [last];
      Children(init, topicId) + tail
  }

  /** A topic's list holds each of its rows exactly as often as the table does, and no
      row of another topic. */
  lemma {:induction false} ChildrenCounts(subs: seq<SubtopicRow>, topicId: Id, x: SubtopicRow)
    ensures multiset(Children(subs, topicId))[x] == if x.topicId == topicId then multiset(subs)[x] else 0
  {
    if |subs| > 0 {
      var last := subs[|subs| - 1];
      var init := subs[..|subs| - 1];
      var tail := if last.topicId == topicId then [last] else [];
      assert subs == init + [last];
      assert multiset(subs) == multiset(init) + multiset{last};
      ChildrenCounts(init, topicId, x);
      assert Children(subs, topicId) == Children(init, topicId) + tail;
      assert multiset(Children(subs, topicId)) == multiset(Children(init, topicId)) + multiset(tail);
    }
  }

  /** A topic that owns no row of the table has an empty list. */
  lemma {:induction false} ChildrenOfNone(subs: seq<SubtopicRow>, topicId: Id)
    requires forall i :: 0 <= i < |subs| ==> subs[i].topicId != topicId
    ensures Children(subs, topicId) == []
  {
    if |subs| > 0 {
      ChildrenOfNone(subs[..|subs| - 1], topicId);
    }
  }

  /** Raising completed reps in the table raises them in every topic's list alike. */
  lemma {:induction false} ChildrenDominates(a: seq<SubtopicRow>, b: seq<SubtopicRow>, topicId: Id)
    requires Dominates(a, b)
    ensures Dominates(Children(a, topicId), Children(b, topicId))
  {
    if |a| > 0 {
      var n := |a| - 1;
      assert Dominates(a[..n], b[..n]) by {
        forall i | 0 <= i < n ensures RaisedFrom(a[..n][i], b[..n][i]) {
          assert RaisedFrom(a[i], b[i]);
        }
      }
      ChildrenDominates(a[..n], b[..n], topicId);
      assert RaisedFrom(a[n], b[n]);
    }
  }

  /** Replacing a row by one with the same id keeps the id column. */
  lemma SameSubtopicIds(rows: seq<SubtopicRow>, i: nat, row: SubtopicRow)
    requires i < |rows| && row.id == rows[i].id
    ensures SubtopicIds(rows[i := row]) == SubtopicIds(rows)
  {
  }

  lemma SameTopicIds(rows: seq<TopicRow>, i: nat, row: TopicRow)
    requires i < |rows| && row.id == rows[i].id
    ensures TopicIds(rows[i := row]) == TopicIds(rows)
  {
  }

  /** A topic's subtopics satisfy the bounds invariant when the whole table does. */
  lemma ChildrenInBounds(subs: seq<SubtopicRow>, topicId: Id)
    requires AllInBounds(subs)
    ensures AllInBounds(Children(subs, topicId))
  {
    var c := Children(subs, topicId);
    forall j | 0 <= j < |c| ensures InBounds(c[j]) {
      assert c[j] in subs;
    }
  }
}
