/** The document store as an in-memory value: one map per collection, keyed
    by document id, and the entities the pages read and write. A query result
    is a list of documents; `IsListing` says when such a list is exactly the
    contents of a collection. */
module Store {
  import opened Wrappers
  import opened Seqs

  type Id = string
  type Uid = string

  /** A store timestamp. The pages' own comparisons read only its `seconds`,
      so the model keeps nothing finer. */
  datatype Timestamp = Timestamp(seconds: int)

  /** The signed-in identity handed out by the authentication service. */
  datatype AuthUser = AuthUser(uid: Uid, email: Option<string>, displayName: Option<string>)

  /** A question document. Fields the pages default when absent are optional. */
  datatype Question = Question(
    id: Id,
    authorId: Uid,
    authorName: Option<string>,
    title: Option<string>,
    description: Option<string>,
    tags: Option<seq<string>>,
    status: Option<string>,
    viewCount: Option<int>,
    answers: Option<int>,
    createdAt: Option<Timestamp>)

  /** An answer document. `userLamps` is the set of uids holding a lamp on it
      (stored as a map from uid to `true`). */
  datatype Answer = Answer(
    id: Id,
    questionId: Id,
    authorId: Uid,
    authorName: Option<string>,
    content: Option<string>,
    code: string,
    createdAt: Option<Timestamp>,
    updatedAt: Option<Timestamp>,
    comments: int,
    lampCount: Option<int>,
    userLamps: set<Uid>)

  /** One saved answer of one user. */
  datatype Favorite = Favorite(id: Id, userId: Uid, answerId: Id, addedAt: Timestamp)

  datatype Achievements = Achievements(solved: int, helpful: int, contributions: int)

  /** A user profile document, stored under the user's uid. */
  datatype UserProfile = UserProfile(
    uid: Uid,
    email: string,
    displayName: string,
    avatar: string,
    role: string,
    bio: string,
    createdAt: Timestamp,
    achievements: Achievements)

  /** A chat message; only the number of messages is ever read. */
  datatype Message = Message(id: Id)

  datatype Db = Db(
    users: map<Uid, UserProfile>,
    questions: map<Id, Question>,
    answers: map<Id, Answer>,
    favorites: map<Id, Favorite>,
    messages: map<Id, Message>)

  function QuestionId(q: Question): Id { q.id }
  function AnswerId(a: Answer): Id { a.id }
  function UserId(u: UserProfile): Id { u.uid }
  function MessageId(m: Message): Id { m.id }

  /** The store's `increment(delta)` field transform: a missing field counts as 0. */
  function Increment(field: Option<int>, delta: int): (r: Option<int>)
    ensures r.Some? && r.value == field.GetOr(0) + delta
  {
    Some(field.GetOr(0) + delta)
  }

  /** JavaScript `(a.lampCount || 0)`. */
  function LampCountOf(a: Answer): int
  {
    a.lampCount.GetOr(0)
  }

  /** The answers whose `questionId` is `qid` (the `where('questionId', '==', qid)` query). */
  function AnswersOf(answers: map<Id, Answer>, qid: Id): (r: map<Id, Answer>)
    ensures forall k :: k in r <==> k in answers && answers[k].questionId == qid
    ensures forall k :: k in r ==> r[k] == answers[k]
  {
    map k | k in answers && answers[k].questionId == qid :: answers[k]
  }

  ghost predicate DistinctIds<T>(docs: seq<T>, idOf: T -> Id)
  {
    forall i, j :: 0 <= i < j < |docs| ==> idOf(docs[i]) != idOf(docs[j])
  }

  /** `docs` lists every document of `m` exactly once, in some order. */
  ghost predicate IsListing<T>(docs: seq<T>, m: map<Id, T>, idOf: T -> Id)
  {
    && DistinctIds(docs, idOf)
    && (forall k :: 0 <= k < |docs| ==> idOf(docs[k]) in m && m[idOf(docs[k])] == docs[k])
    && (forall id :: id in m ==> exists k :: 0 <= k < |docs| && idOf(docs[k]) == id)
  }

  function IdsOf<T>(docs: seq<T>, idOf: T -> Id): set<Id>
  {
    if |docs| == 0 then {} else {idOf(docs[0])} + IdsOf(docs[1..], idOf)
  }

  lemma {:induction false} IdsOfContents<T>(docs: seq<T>, idOf: T -> Id)
    ensures forall id :: id in IdsOf(docs, idOf) <==> exists k :: 0 <= k < |docs| && idOf(docs[k]) == id
  {
    if |docs| > 0 {
      IdsOfContents(docs[1..], idOf);
      forall id | (exists k :: 0 <= k < |docs| && idOf(docs[k]) == id)
        ensures id in IdsOf(docs, idOf)
      {
        var k :| 0 <= k < |docs| && idOf(docs[k]) == id;
        if k > 0 {
          assert idOf(docs[1..][k - 1]) == id;
        }
      }
    }
  }

  /** Distinct ids: as many ids as documents. */
  lemma {:induction false} IdsOfSize<T>(docs: seq<T>, idOf: T -> Id)
    requires DistinctIds(docs, idOf)
    ensures |IdsOf(docs, idOf)| == |docs|
  {
    if |docs| > 0 {
      IdsOfSize(docs[1..], idOf);
      IdsOfContents(docs[1..], idOf);
      assert idOf(docs[0]) !in IdsOf(docs[1..], idOf);
    }
  }

  /** A listing of a collection has as many entries as the collection. */
  lemma {:induction false} ListingSize<T>(docs: seq<T>, m: map<Id, T>, idOf: T -> Id)
    requires IsListing(docs, m, idOf)
    ensures |docs| == |m|
  {
    IdsOfContents(docs, idOf);
    IdsOfSize(docs, idOf);
    assert IdsOf(docs, idOf) == m.Keys;
  }

  /** `x => x.id !== id`. */
  function NotId<T(!new)>(idOf: T -> Id, id: Id): (p: T -> bool)
    ensures forall x :: p(x) <==> idOf(x) != id
  {
    x => idOf(x) != id
  }

  /** `docs.map(x => x.id === id ? f(x) : x)`. */
  function UpdateWhere<T>(docs: seq<T>, idOf: T -> Id, id: Id, f: T -> T): (r: seq<T>)
    ensures |r| == |docs|
    ensures forall k :: 0 <= k < |docs| && idOf(docs[k]) == id ==> r[k] == f(docs[k])
    ensures forall k :: 0 <= k < |docs| && idOf(docs[k]) != id ==> r[k] == docs[k]
  {
    Map(docs, x => if idOf(x) == id then f(x) else x)
  }

  /** Filtering keeps ids distinct. */
  lemma {:induction false} KeepDistinct<T>(docs: seq<T>, p: T -> bool, idOf: T -> Id)
    requires DistinctIds(docs, idOf)
    ensures DistinctIds(Keep(docs, p), idOf)
  {
    if |docs| > 0 {
      var t := docs[1..];
      assert DistinctIds(t, idOf) by {
        forall i, j | 0 <= i < j < |t|
          ensures idOf(t[i]) != idOf(t[j])
        {
          assert t[i] == docs[i + 1] && t[j] == docs[j + 1];
        }
      }
      KeepDistinct(t, p, idOf);
      var rt := Keep(t, p);
      if p(docs[0]) {
        var r := [docs[0]] + rt;
        assert Keep(docs, p) == r;
        forall i, j | 0 <= i < j < |r|
          ensures idOf(r[i]) != idOf(r[j])
        {
          assert r[j] == rt[j - 1];
          if i == 0 {
            assert rt[j - 1] in t;
            var k :| 0 <= k < |t| && t[k] == rt[j - 1];
            assert docs[k + 1] == t[k];
          } else {
            assert r[i] == rt[i - 1];
          }
        }
      }
    }
  }

  /** Deleting a document and filtering its id out of a listing keeps the
      listing exact. */
  lemma {:induction false} KeepListing<T(!new)>(docs: seq<T>, m: map<Id, T>, idOf: T -> Id, id: Id)
    requires IsListing(docs, m, idOf)
    ensures IsListing(Keep(docs, NotId(idOf, id)), m - {id}, idOf)
  {
    var p := NotId(idOf, id);
    var r := Keep(docs, p);
    var m' := m - {id};
    KeepDistinct(docs, p, idOf);
    forall k | 0 <= k < |r|
      ensures idOf(r[k]) in m' && m'[idOf(r[k])] == r[k]
    {
      assert r[k] in docs;
      var j :| 0 <= j < |docs| && docs[j] == r[k];
      assert p(r[k]);
    }
    forall i | i in m'
      ensures exists k :: 0 <= k < |r| && idOf(r[k]) == i
    {
      var j :| 0 <= j < |docs| && idOf(docs[j]) == i;
      assert p(docs[j]);
      assert docs[j] in r;
      var k :| 0 <= k < |r| && r[k] == docs[j];
    }
  }

  /** Updating a stored document and mapping the same update over a listing
      keeps the listing exact, provided the update keeps the id. */
  lemma {:induction false} UpdateListing<T>(docs: seq<T>, m: map<Id, T>, idOf: T -> Id, id: Id, f: T -> T)
    requires IsListing(docs, m, idOf) && id in m
    requires forall x :: idOf(f(x)) == idOf(x)
    ensures IsListing(UpdateWhere(docs, idOf, id, f), m[id := f(m[id])], idOf)
  {
    var r := UpdateWhere(docs, idOf, id, f);
    SameIds(docs, r, idOf, id, f);
    UpdatedEntries(docs, r, m, idOf, id, f);
    var m' := m[id := f(m[id])];
    forall i | i in m'
      ensures exists k :: 0 <= k < |r| && idOf(r[k]) == i
    {
      var k :| 0 <= k < |docs| && idOf(docs[k]) == i;
      assert idOf(r[k]) == i;
    }
  }

  /** The update keeps every id in place. */
  lemma {:induction false} SameIds<T>(docs: seq<T>, r: seq<T>, idOf: T -> Id, id: Id, f: T -> T)
    requires forall x :: idOf(f(x)) == idOf(x)
    requires r == UpdateWhere(docs, idOf, id, f)
    requires DistinctIds(docs, idOf)
    ensures forall k :: 0 <= k < |r| ==> idOf(r[k]) == idOf(docs[k])
    ensures DistinctIds(r, idOf)
  {
    forall k | 0 <= k < |r|
      ensures idOf(r[k]) == idOf(docs[k])
    {
      if idOf(docs[k]) == id {
        assert r[k] == f(docs[k]);
      }
    }
  }

  /** Each updated entry is the stored document after the update. */
  lemma {:induction false} UpdatedEntries<T>(docs: seq<T>, r: seq<T>, m: map<Id, T>, idOf: T -> Id, id: Id, f: T -> T)
    requires r == UpdateWhere(docs, idOf, id, f) && id in m
    requires forall k :: 0 <= k < |docs| ==> idOf(docs[k]) in m && m[idOf(docs[k])] == docs[k]
    requires forall k :: 0 <= k < |r| ==> idOf(r[k]) == idOf(docs[k])
    ensures forall k :: 0 <= k < |r| ==> idOf(r[k]) in m[id := f(m[id])] && m[id := f(m[id])][idOf(r[k])] == r[k]
  {
    forall k | 0 <= k < |r|
      ensures idOf(r[k]) in m[id := f(m[id])] && m[id := f(m[id])][idOf(r[k])] == r[k]
    {
      assert m[idOf(docs[k])] == docs[k];
    }
  }
}
