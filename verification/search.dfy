/** The search page: a case-insensitive substring filter over every question. */
module Search {
  import opened Wrappers
  import opened Text
  import opened Seqs
  import opened Store

  /** `field?.toLowerCase().includes(lq)`: an absent field never matches. */
  predicate FieldMatches(field: Option<string>, lq: string)
  {
    field.Some? && Includes(ToLower(field.value), lq)
  }

  /** `tags?.some(tag => tag.toLowerCase().includes(lq))`. */
  predicate TagsMatch(tags: Option<seq<string>>, lq: string)
  {
    tags.Some? && exists i :: 0 <= i < |tags.value| && Includes(ToLower(tags.value[i]), lq)
  }

  predicate Matches(q: Question, lq: string)
  {
    FieldMatches(q.title, lq) || FieldMatches(q.description, lq) || TagsMatch(q.tags, lq)
  }

  function MatchesQuery(lq: string): Question -> bool
  {
    q => Matches(q, lq)
  }

  /** `searchParams.get('q') || ''`. */
  function QueryOf(param: Option<string>): (r: string)
    ensures r == param.GetOr("")
  {
    Or(param, "")
  }

  /** The questions, among all fetched ones, whose title, description or some
      tag contains the lower-cased query; nothing for a blank query. A
      non-blank query is lower-cased but not trimmed. */
  function SearchQuestions(all: seq<Question>, query: string): (r: seq<Question>)
    ensures IsBlank(query) ==> r == []
    ensures |r| <= |all| && forall q :: q in r ==> q in all
    ensures forall k :: 0 <= k < |r| ==> Matches(r[k], ToLower(query))
    ensures forall q :: q in all && !IsBlank(query) && Matches(q, ToLower(query)) ==> q in r
    ensures IsSubsequence(r, all)
  {
    if IsBlank(query) then []
    else
      KeepIsSubsequence(all, MatchesQuery(ToLower(query)));
      Keep(all, MatchesQuery(ToLower(query)))
  }

  /** Reference definition of a hit: the lower-cased query occurs at some
      position of the lower-cased title, of the description, or of a tag. */
  ghost predicate Mentions(q: Question, lq: string)
  {
    || (q.title.Some? && exists i :: OccursAt(ToLower(q.title.value), lq, i))
    || (q.description.Some? && exists i :: OccursAt(ToLower(q.description.value), lq, i))
    || (q.tags.Some? && exists t, i :: t in q.tags.value && OccursAt(ToLower(t), lq, i))
  }

  lemma MatchesIffMentions(q: Question, lq: string)
    ensures Matches(q, lq) <==> Mentions(q, lq)
  {
    if q.title.Some? {
      IncludesIff(ToLower(q.title.value), lq);
    }
    if q.description.Some? {
      IncludesIff(ToLower(q.description.value), lq);
    }
    if q.tags.Some? {
      var tags := q.tags.value;
      forall t | t in tags
        ensures Includes(ToLower(t), lq) <==> exists i :: OccursAt(ToLower(t), lq, i)
      {
        IncludesIff(ToLower(t), lq);
      }
      if TagsMatch(q.tags, lq) {
        var i :| 0 <= i < |tags| && Includes(ToLower(tags[i]), lq);
        assert tags[i] in tags;
      }
      if exists t, i :: t in tags && OccursAt(ToLower(t), lq, i) {
        var t, i :| t in tags && OccursAt(ToLower(t), lq, i);
        var j :| 0 <= j < |tags| && tags[j] == t;
        assert Includes(ToLower(tags[j]), lq);
      }
    }
  }

  /** A fetched question is a result exactly when the query is not blank and
      the question mentions the lower-cased query. */
  lemma SearchIff(all: seq<Question>, query: string, q: Question)
    requires q in all
    ensures q in SearchQuestions(all, query) <==> !IsBlank(query) && Mentions(q, ToLower(query))
  {
    MatchesIffMentions(q, ToLower(query));
  }

  /** Case does not matter: a query and its lower-cased form give the same results. */
  lemma SearchIgnoresCase(all: seq<Question>, query: string)
    ensures SearchQuestions(all, ToLower(query)) == SearchQuestions(all, query)
  {
    ToLowerKeepsBlank(query);
    ToLowerIdempotent(query);
  }

  /** "b" finds a question titled "b" ... */
  lemma QueryFound(q: Question, qs: seq<Question>)
    requires q.title == Some("b") && qs == [q]
    ensures SearchQuestions(qs, "b") == qs
  {
    NotBlankB();
    IncludesB();
    assert ToLower("b") == "b";
    assert Matches(q, "b");
    var r := SearchQuestions(qs, "b");
    assert q in r;
  }

  /** ... but "b " does not: a non-blank query is matched untrimmed. */
  lemma QueryNotTrimmed(q: Question, qs: seq<Question>)
    requires q.title == Some("b") && q.description.None? && q.tags.None? && qs == [q]
    ensures SearchQuestions(qs, "b ") == []
  {
    NotBlankBSpace();
    ExcludesBSpace();
    assert ToLower("b ") == "b ";
    assert !Matches(q, "b ");
  }

  lemma NotBlankB()
    ensures !IsBlank("b")
  {
    BlankIffAllWhitespace("b");
    assert !IsWhitespace("b"[0]);
  }

  lemma NotBlankBSpace()
    ensures !IsBlank("b ")
  {
    BlankIffAllWhitespace("b ");
    assert !IsWhitespace("b "[0]);
  }

  lemma IncludesB()
    ensures Includes("b", "b")
  {
    assert StartsWith("b", "b");
  }

  lemma ExcludesBSpace()
    ensures !Includes("b", "b ")
  {
    assert !StartsWith("b", "b ");
    assert !Includes("", "b ");
  }
}
