/** GET /api/categories: the topics' category labels, each once, in the order they first
    appear in the column the store returns. */
module Categories {
  import opened Basics
  import opened Records

  /** The first occurrence of every element, in order of first occurrence. */
  function Dedup<T(==)>(s: seq<T>): (r: seq<T>)
    ensures forall i :: 0 <= i < |r| ==> r[i] in s
    ensures forall i :: 0 <= i < |s| ==> s[i] in r
    ensures Distinct(r)
    ensures forall i, j :: 0 <= i < j < |r| ==> IndexOf(s, r[i]).value < IndexOf(s, r[j]).value
  {
    if |s| == 0 then []
    else
      var p, x := s[..|s| - 1], s[|s| - 1];
      var d := Dedup(p);
      assert s == p + [x];
      FirstIndexInPrefix(p, x);
      if x in d then d else d + [x]
  }

  /** Appending to a sequence does not move the first occurrence of what it already holds. */
  lemma FirstIndexInPrefix<T>(p: seq<T>, x: T)
    ensures forall y :: y in p ==> IndexOf(p + [x], y) == IndexOf(p, y)
    ensures x !in p ==> IndexOf(p + [x], x) == Some(|p|)
  {
    forall y | y in p ensures IndexOf(p + [x], y) == IndexOf(p, y) {
      var k := IndexOf(p, y).value;
      assert (p + [x])[..k] == p[..k];
      IndexOfUnique(p + [x], y, k);
    }
    if x !in p {
      assert (p + [x])[..|p|] == p;
      IndexOfUnique(p + [x], x, |p|);
    }
  }

  /** The first occurrence is the only position holding `x` with no `x` before it. */
  lemma IndexOfUnique<T>(s: seq<T>, x: T, k: nat)
    requires k < |s| && s[k] == x && x !in s[..k]
    ensures IndexOf(s, x) == Some(k)
  {
  }

  /** The labels as JavaScript's `[...new Set(labels)]` collects them: one pass, remembering
      what has been seen. */
  method DistinctCategories(labels: seq<Option<string>>) returns (r: seq<Option<string>>)
    ensures r == Dedup(labels)
  {
    var seen: set<Option<string>> := {};
    r := [];
    var i := 0;
    while i < |labels|
      invariant 0 <= i <= |labels|
      invariant r == Dedup(labels[..i])
      invariant forall x :: x in seen <==> x in r
    {
      assert labels[..i + 1][..i] == labels[..i];
      if labels[i] !in seen {
        seen := seen + {labels[i]};
        r := r + [labels[i]];
      }
      i := i + 1;
    }
    assert labels[..|labels|] == labels;
  }

  /** The category column of the topics table. */
  function CategoryColumn(topics: seq<TopicRow>): (c: seq<Option<string>>)
    ensures |c| == |topics| && forall i :: 0 <= i < |topics| ==> c[i] == topics[i].category
  {
    seq(|topics|, i requires 0 <= i < |topics| => topics[i].category)
  }

  /** Whatever order the store delivers the column in, the answer lists every label in use
      exactly once and nothing else. */
  lemma CategoriesCoverTopics(topics: seq<TopicRow>, delivered: seq<Option<string>>)
    requires multiset(delivered) == multiset(CategoryColumn(topics))
    ensures Distinct(Dedup(delivered))
    ensures forall i :: 0 <= i < |topics| ==> topics[i].category in Dedup(delivered)
    ensures forall k :: 0 <= k < |Dedup(delivered)| ==> Dedup(delivered)[k] in CategoryColumn(topics)
  {
    var column := CategoryColumn(topics);
    var r := Dedup(delivered);
    forall i | 0 <= i < |topics| ensures topics[i].category in r {
      assert column[i] in multiset(column);
      var j :| 0 <= j < |delivered| && delivered[j] == column[i];
    }
    forall k | 0 <= k < |r| ensures r[k] in column {
      assert r[k] in multiset(delivered);
    }
  }

  /** Deduplicating twice changes nothing. */
  lemma DedupIdempotent<T>(s: seq<T>)
    ensures Dedup(Dedup(s)) == Dedup(s)
  {
    DedupOfDistinct(Dedup(s));
  }

  lemma {:induction false} DedupOfDistinct<T>(s: seq<T>)
    requires Distinct(s)
    ensures Dedup(s) == s
  {
    if |s| > 0 {
      var p, x := s[..|s| - 1], s[|s| - 1];
      assert Distinct(p);
      DedupOfDistinct(p);
      assert x !in p;
      assert x !in Dedup(p);
      assert Dedup(s) == Dedup(p) + [x];
      assert p + [x] == s;
    }
  }
}
