/** The question page: loading a question (and counting the view), posting an
    answer, the lamp toggle and the favorite toggle, each a transition of the
    store together with the page's own state. */
module QuestionDetail {
  import opened Wrappers
  import opened Text
  import opened Ordering
  import opened Store

  /** The page's local state. `userLamps` and `userFavorites` hold answer ids. */
  datatype DetailPage = DetailPage(
    question: Option<Question>,
    answers: seq<Answer>,
    loading: bool,
    answerContent: string,
    answerCode: string,
    submitting: bool,
    userLamps: set<Id>,
    userFavorites: set<Id>,
    error: string)

  const InitialPage := DetailPage(None, [], true, "", "", false, {}, {}, "")

  const EmptyAnswerError := "Answer cannot be empty"
  const PostFailedError := "Failed to post answer"

  /** What the page renders. */
  datatype DetailView = Loading | NotFound | Shown(question: Question)

  function ViewOf(page: DetailPage): (v: DetailView)
    ensures v == Loading <==> page.loading
    ensures v == NotFound <==> !page.loading && page.question.None?
    ensures v.Shown? ==> page.question == Some(v.question)
  {
    if page.loading then Loading
    else if page.question.None? then NotFound
    else Shown(page.question.value)
  }

  /** A transition's result. `refetch` is set when the handler goes on to
      re-query the question's answers (see `Refresh`). */
  datatype Step = Step(db: Db, page: DetailPage, refetch: bool)

  // ---------------------------------------------------------------------
  // Answer ordering

  /** `answers.sort((a, b) => (b.lampCount || 0) - (a.lampCount || 0))`. */
  function SortByLamps(answers: seq<Answer>): (r: seq<Answer>)
    ensures multiset(r) == multiset(answers)
    ensures forall i, j :: 0 <= i < j < |r| ==> LampCountOf(r[i]) >= LampCountOf(r[j])
  {
    SortDesc(answers, LampCountOf)
  }

  /** Answers with equal lamp counts keep the order the query returned them in. */
  lemma SortByLampsStable(answers: seq<Answer>, count: int)
    ensures WithKey(SortByLamps(answers), LampCountOf, count) == WithKey(answers, LampCountOf, count)
  {
    SortDescStable(answers, LampCountOf, count);
  }

  /** Replaces the answer list with a freshly fetched one, sorted. */
  function Refresh(page: DetailPage, fetched: seq<Answer>): (r: DetailPage)
    ensures multiset(r.answers) == multiset(fetched)
    ensures SortedDesc(r.answers, LampCountOf)
    ensures r == page.(answers := r.answers)
  {
    page.(answers := SortByLamps(fetched))
  }

  // ---------------------------------------------------------------------
  // Loading

  /** The answer ids among `answers` on which `uid` holds a lamp. */
  function LampedBy(answers: seq<Answer>, uid: Uid): (r: set<Id>)
    ensures forall id :: id in r <==> exists a :: a in answers && a.id == id && uid in a.userLamps
  {
    set a | a in answers && uid in a.userLamps :: a.id
  }

  /** The answer ids `uid` has saved (the `where('userId', '==', uid)` query). */
  function FavoritesOf(favorites: map<Id, Favorite>, uid: Uid): (r: set<Id>)
    ensures forall aid :: aid in r <==> exists k :: k in favorites && favorites[k].userId == uid && favorites[k].answerId == aid
  {
    set k | k in favorites && favorites[k].userId == uid :: favorites[k].answerId
  }

  /** The page's effect on opening question `id`: an existing question is
      shown as read, its stored `viewCount` goes up by one, its answers
      (`fetched`, the query's result) are listed by lamp count, and for a
      signed-in user the lamp and favorite sets are rebuilt. */
  function LoadQuestion(db: Db, page: DetailPage, id: Id, user: Option<AuthUser>, fetched: seq<Answer>): (r: Step)
    ensures id == "" ==> r.db == db && r.page == page
    ensures id != "" && id !in db.questions ==>
      r.db == db && !r.page.loading && r.page == page.(loading := false)
    ensures id != "" && id in db.questions ==>
      && r.db.questions.Keys == db.questions.Keys
      && r.db == db.(questions := r.db.questions)
      && (forall k :: k in db.questions && k != id ==> r.db.questions[k] == db.questions[k])
      && r.db.questions[id] == db.questions[id].(viewCount := r.db.questions[id].viewCount)
      && r.db.questions[id].viewCount == Some(db.questions[id].viewCount.GetOr(0) + 1)
      && ViewOf(r.page) == Shown(db.questions[id])
      && multiset(r.page.answers) == multiset(fetched)
      && SortedDesc(r.page.answers, LampCountOf)
    ensures !r.refetch
  {
    if id == "" then Step(db, page, false)
    else if id !in db.questions then Step(db, page.(loading := false), false)
    else
      var q := db.questions[id];
      var db' := db.(questions := db.questions[id := q.(viewCount := Increment(q.viewCount, 1))]);
      var sorted := SortByLamps(fetched);
      var page' := page.(question := Some(q), answers := sorted, loading := false);
      var page'' :=
        if user.Some? then
          page'.(userLamps := LampedBy(sorted, user.value.uid),
                 userFavorites := FavoritesOf(db'.favorites, user.value.uid))
        else page';
      Step(db', page'', false)
  }

  /** Opening a missing question from a fresh page shows the not-found view. */
  lemma LoadMissingIsNotFound(db: Db, id: Id, user: Option<AuthUser>, fetched: seq<Answer>)
    requires id != "" && id !in db.questions
    ensures ViewOf(LoadQuestion(db, InitialPage, id, user, fetched).page) == NotFound
    ensures LoadQuestion(db, InitialPage, id, user, fetched).db == db
  {
  }

  /** The client's lamp set agrees with the store about answer `aid`. */
  ghost predicate LampAgrees(db: Db, page: DetailPage, uid: Uid, aid: Id)
  {
    aid in db.answers ==> (aid in page.userLamps <==> uid in db.answers[aid].userLamps)
  }

  /** The client's favorite set is exactly what the store holds for `uid`. */
  ghost predicate FavoritesAgree(db: Db, page: DetailPage, uid: Uid)
  {
    page.userFavorites == FavoritesOf(db.favorites, uid)
  }

  /** When the fetched answers are the question's answers, loading leaves the
      client's lamp set in agreement with the store for each of them, and the
      favorite set in agreement with the store. */
  lemma LoadEstablishesAgreement(db: Db, page: DetailPage, id: Id, user: AuthUser, fetched: seq<Answer>, aid: Id)
    requires id != "" && id in db.questions
    requires IsListing(fetched, AnswersOf(db.answers, id), AnswerId)
    requires aid in db.answers && db.answers[aid].questionId == id
    ensures LampAgrees(LoadQuestion(db, page, id, Some(user), fetched).db,
                       LoadQuestion(db, page, id, Some(user), fetched).page, user.uid, aid)
    ensures FavoritesAgree(LoadQuestion(db, page, id, Some(user), fetched).db,
                           LoadQuestion(db, page, id, Some(user), fetched).page, user.uid)
  {
    var r := LoadQuestion(db, page, id, Some(user), fetched);
    var sorted := SortByLamps(fetched);
    var k :| 0 <= k < |fetched| && AnswerId(fetched[k]) == aid;
    var a := fetched[k];
    assert a == db.answers[aid];
    assert a in multiset(sorted);
    if aid in r.page.userLamps {
      var b :| b in sorted && b.id == aid && user.uid in b.userLamps;
      assert b in multiset(fetched);
      var j :| 0 <= j < |fetched| && fetched[j] == b;
      assert b == db.answers[aid];
    }
  }

  // ---------------------------------------------------------------------
  // Posting an answer

  /** The answer document a post writes. */
  function NewAnswer(id: Id, qid: Id, user: AuthUser, profile: Option<UserProfile>,
                     content: string, code: string, now: Timestamp): (a: Answer)
    ensures a.id == id && a.questionId == qid && a.authorId == user.uid
    ensures a.content == Some(Trim(content)) && a.code == Trim(code)
    ensures a.lampCount == Some(0) && a.userLamps == {} && a.comments == 0
    ensures a.createdAt == Some(now) && a.updatedAt == Some(now)
    ensures a.authorName ==
      (if profile.Some? && profile.value.displayName != "" then Some(profile.value.displayName)
       else user.email)
  {
    Answer(
      id := id,
      questionId := qid,
      authorId := user.uid,
      authorName :=
        if profile.Some? && profile.value.displayName != "" then Some(profile.value.displayName)
        else user.email,
      content := Some(Trim(content)),
      code := Trim(code),
      createdAt := Some(now),
      updatedAt := Some(now),
      comments := 0,
      lampCount := Some(0),
      userLamps := {})
  }

  /** Submitting the answer form for question `qid`. The new document gets id
      `newId`, chosen by the store. Without a signed-in user, or with content
      that trims to empty, nothing is written. Otherwise the answer is added
      and, when the question still exists, its `answers` counter is
      incremented and the form cleared; when it does not, the increment fails
      after the answer was already added and the page reports the failure. */
  function PostAnswer(db: Db, page: DetailPage, qid: Id, user: Option<AuthUser>,
                      profile: Option<UserProfile>, newId: Id, now: Timestamp): (r: Step)
    ensures user.None? ==> r == Step(db, page, false)
    ensures user.Some? && IsBlank(page.answerContent) ==>
      r == Step(db, page.(error := EmptyAnswerError), false)
    ensures user.Some? && !IsBlank(page.answerContent) ==>
      && r.db.answers == db.answers[newId := NewAnswer(newId, qid, user.value, profile, page.answerContent, page.answerCode, now)]
      && r.db.users == db.users && r.db.favorites == db.favorites && r.db.messages == db.messages
    ensures user.Some? && !IsBlank(page.answerContent) && qid in db.questions ==>
      && qid in r.db.questions
      && r.db.questions == db.questions[qid := r.db.questions[qid]]
      && r.db.questions[qid] == db.questions[qid].(answers := Some(db.questions[qid].answers.GetOr(0) + 1))
      && r.page == page.(answerContent := "", answerCode := "", error := "", submitting := false)
      && r.refetch
    ensures user.Some? && !IsBlank(page.answerContent) && qid !in db.questions ==>
      r.db.questions == db.questions && r.page == page.(error := PostFailedError, submitting := false)
      && !r.refetch
  {
    if user.None? then Step(db, page, false)
    else if IsBlank(page.answerContent) then Step(db, page.(error := EmptyAnswerError), false)
    else
      var a := NewAnswer(newId, qid, user.value, profile, page.answerContent, page.answerCode, now);
      var db1 := db.(answers := db.answers[newId := a]);
      if qid in db.questions then
        var q := db.questions[qid];
        var db2 := db1.(questions := db.questions[qid := q.(answers := Increment(q.answers, 1))]);
        Step(db2, page.(answerContent := "", answerCode := "", error := "", submitting := false), true)
      else
        Step(db1, page.(error := PostFailedError, submitting := false), false)
  }

  /** The question's `answers` counter equals the number of its answers. */
  ghost predicate CounterMatches(db: Db, qid: Id)
  {
    qid in db.questions && db.questions[qid].answers.GetOr(0) == |AnswersOf(db.answers, qid)|
  }

  lemma AddAnswerCount(answers: map<Id, Answer>, a: Answer, qid: Id)
    requires a.id !in answers
    ensures |AnswersOf(answers[a.id := a], qid)|
         == |AnswersOf(answers, qid)| + (if a.questionId == qid then 1 else 0)
  {
    var before := AnswersOf(answers, qid);
    var after := AnswersOf(answers[a.id := a], qid);
    if a.questionId == qid {
      assert after == before[a.id := a];
    } else {
      assert after == before;
    }
  }

  /** A post keeps every question's counter in step with its answers: the
      counted question gains one answer and one count, the others neither. */
  lemma PostKeepsCounters(db: Db, page: DetailPage, qid: Id, user: Option<AuthUser>,
                          profile: Option<UserProfile>, newId: Id, now: Timestamp, q: Id)
    requires newId !in db.answers
    requires CounterMatches(db, q)
    ensures CounterMatches(PostAnswer(db, page, qid, user, profile, newId, now).db, q)
  {
    var r := PostAnswer(db, page, qid, user, profile, newId, now);
    if user.Some? && !IsBlank(page.answerContent) {
      var a := NewAnswer(newId, qid, user.value, profile, page.answerContent, page.answerCode, now);
      assert r.db.answers == db.answers[newId := a];
      AddAnswerCount(db.answers, a, q);
      if q == qid {
        assert r.db.questions[q].answers == Some(db.questions[q].answers.GetOr(0) + 1);
      } else {
        assert r.db.questions[q] == db.questions[q];
      }
    } else {
      assert r.db == db;
    }
  }

  // ---------------------------------------------------------------------
  // Lamps

  /** The answer after `uid` withdraws (`add == false`) or gives (`add`) a lamp. */
  function Lamped(a: Answer, uid: Uid, add: bool): Answer
  {
    if add then a.(userLamps := a.userLamps + {uid}, lampCount := Increment(a.lampCount, 1))
    else a.(userLamps := a.userLamps - {uid}, lampCount := Increment(a.lampCount, -1))
  }

  /** Clicking the lamp on answer `aid`. The branch is chosen by the page's
      own lamp set; the removal writes the stored uid set minus `uid`, the
      addition sets `uid`, and the count moves by one either way. */
  function ToggleLamp(db: Db, page: DetailPage, aid: Id, user: Option<AuthUser>): (r: Step)
    ensures user.None? || aid !in db.answers ==> r == Step(db, page, false)
    ensures user.Some? && aid in db.answers ==>
      && aid in r.db.answers
      && r.db == db.(answers := db.answers[aid := r.db.answers[aid]])
      && r.db.answers[aid] == db.answers[aid].(userLamps := r.db.answers[aid].userLamps,
                                               lampCount := r.db.answers[aid].lampCount)
      && r.db.answers[aid].userLamps - {user.value.uid} == db.answers[aid].userLamps - {user.value.uid}
      && r.page == page.(userLamps := r.page.userLamps)
      && r.page.userLamps - {aid} == page.userLamps - {aid}
      && r.refetch
    ensures user.Some? && aid in db.answers && aid in page.userLamps ==>
      && user.value.uid !in r.db.answers[aid].userLamps
      && LampCountOf(r.db.answers[aid]) == LampCountOf(db.answers[aid]) - 1
      && aid !in r.page.userLamps
    ensures user.Some? && aid in db.answers && aid !in page.userLamps ==>
      && user.value.uid in r.db.answers[aid].userLamps
      && LampCountOf(r.db.answers[aid]) == LampCountOf(db.answers[aid]) + 1
      && aid in r.page.userLamps
  {
    if user.None? || aid !in db.answers then Step(db, page, false)
    else
      var add := aid !in page.userLamps;
      var a' := Lamped(db.answers[aid], user.value.uid, add);
      var lamps := if add then page.userLamps + {aid} else page.userLamps - {aid};
      Step(db.(answers := db.answers[aid := a']), page.(userLamps := lamps), true)
  }

  /** `lampCount` is present and equals the number of lamp holders. */
  ghost predicate LampsConsistent(a: Answer)
  {
    a.lampCount == Some(|a.userLamps|)
  }

  /** With the page's lamp set agreeing with the store, a toggle keeps every
      answer's count equal to its number of lamp holders (so it never goes
      negative), and the page still agrees with the store afterwards. */
  lemma ToggleLampKeepsCount(db: Db, page: DetailPage, aid: Id, user: Option<AuthUser>)
    requires user.Some? ==> LampAgrees(db, page, user.value.uid, aid)
    requires forall k :: k in db.answers ==> LampsConsistent(db.answers[k])
    ensures forall k :: k in ToggleLamp(db, page, aid, user).db.answers ==>
      LampsConsistent(ToggleLamp(db, page, aid, user).db.answers[k])
    ensures user.Some? ==>
      LampAgrees(ToggleLamp(db, page, aid, user).db, ToggleLamp(db, page, aid, user).page, user.value.uid, aid)
  {
    if user.Some? && aid in db.answers {
      var uid := user.value.uid;
      var add := aid !in page.userLamps;
      LampedConsistent(db.answers[aid], uid, add);
      assert ToggleLamp(db, page, aid, user).db.answers == db.answers[aid := Lamped(db.answers[aid], uid, add)];
    }
  }

  /** Giving a lamp one does not hold, or withdrawing one held, keeps the
      count equal to the number of holders. */
  lemma LampedConsistent(a: Answer, uid: Uid, add: bool)
    requires LampsConsistent(a) && (add <==> uid !in a.userLamps)
    ensures LampsConsistent(Lamped(a, uid, add))
  {
    if add {
      assert |a.userLamps + {uid}| == |a.userLamps| + 1;
    } else {
      assert a.userLamps == (a.userLamps - {uid}) + {uid};
      assert |a.userLamps - {uid}| == |a.userLamps| - 1;
    }
  }

  /** Two toggles by the same user restore the store and the page exactly. */
  lemma ToggleLampTwice(db: Db, page: DetailPage, aid: Id, user: AuthUser)
    requires LampAgrees(db, page, user.uid, aid)
    requires aid in db.answers ==> db.answers[aid].lampCount.Some?
    ensures ToggleLamp(ToggleLamp(db, page, aid, Some(user)).db,
                       ToggleLamp(db, page, aid, Some(user)).page, aid, Some(user)).db == db
    ensures ToggleLamp(ToggleLamp(db, page, aid, Some(user)).db,
                       ToggleLamp(db, page, aid, Some(user)).page, aid, Some(user)).page == page
  {
    if aid in db.answers {
      var a := db.answers[aid];
      var r1 := ToggleLamp(db, page, aid, Some(user));
      var r2 := ToggleLamp(r1.db, r1.page, aid, Some(user));
      if aid in page.userLamps {
        assert (a.userLamps - {user.uid}) + {user.uid} == a.userLamps;
        assert r2.db.answers[aid] == a;
        assert r2.db.answers == db.answers;
        assert (page.userLamps - {aid}) + {aid} == page.userLamps;
      } else {
        assert (a.userLamps + {user.uid}) - {user.uid} == a.userLamps;
        assert r2.db.answers[aid] == a;
        assert r2.db.answers == db.answers;
        assert (page.userLamps + {aid}) - {aid} == page.userLamps;
      }
    }
  }

  /** Why agreement is needed: a page that believes it holds a lamp the store
      does not know about drives the count below the number of holders. */
  lemma StaleLampSetBreaksCount()
    ensures
      var a := Answer("a1", "q1", "u2", None, Some("x"), "", None, None, 0, Some(0), {});
      var db := Db(map[], map[], map["a1" := a], map[], map[]);
      var page := InitialPage.(userLamps := {"a1"});
      var r := ToggleLamp(db, page, "a1", Some(AuthUser("u1", None, None)));
      LampsConsistent(a) && !LampsConsistent(r.db.answers["a1"]) && LampCountOf(r.db.answers["a1"]) == -1
  {
  }

  // ---------------------------------------------------------------------
  // Favorites

  /** `favorites` without every document saving `aid` for `uid`. */
  function RemoveFavorites(favorites: map<Id, Favorite>, uid: Uid, aid: Id): (r: map<Id, Favorite>)
    ensures forall k :: k in r <==> k in favorites && !(favorites[k].userId == uid && favorites[k].answerId == aid)
    ensures forall k :: k in r ==> r[k] == favorites[k]
  {
    map k | k in favorites && !(favorites[k].userId == uid && favorites[k].answerId == aid) :: favorites[k]
  }

  /** Clicking the heart on answer `aid`: with `aid` in the page's favorite
      set, every stored favorite of that pair is deleted; otherwise one is
      added under the store-chosen id `newId`. Only `aid` changes membership
      in the page's set. */
  function ToggleFavorite(db: Db, page: DetailPage, aid: Id, user: Option<AuthUser>,
                          newId: Id, now: Timestamp): (r: Step)
    ensures user.None? ==> r == Step(db, page, false)
    ensures user.Some? ==>
      && r.db == db.(favorites := r.db.favorites)
      && r.page == page.(userFavorites := r.page.userFavorites)
      && r.page.userFavorites - {aid} == page.userFavorites - {aid}
      && (aid in r.page.userFavorites <==> aid !in page.userFavorites)
      && !r.refetch
    ensures user.Some? && aid in page.userFavorites ==>
      && (forall k :: k in r.db.favorites ==> !(r.db.favorites[k].userId == user.value.uid && r.db.favorites[k].answerId == aid))
      && (forall k :: k in db.favorites && !(db.favorites[k].userId == user.value.uid && db.favorites[k].answerId == aid)
            ==> k in r.db.favorites && r.db.favorites[k] == db.favorites[k])
      && r.db.favorites.Keys <= db.favorites.Keys
    ensures user.Some? && aid !in page.userFavorites ==>
      r.db.favorites == db.favorites[newId := Favorite(newId, user.value.uid, aid, now)]
  {
    if user.None? then Step(db, page, false)
    else if aid in page.userFavorites then
      Step(db.(favorites := RemoveFavorites(db.favorites, user.value.uid, aid)),
           page.(userFavorites := page.userFavorites - {aid}), false)
    else
      Step(db.(favorites := db.favorites[newId := Favorite(newId, user.value.uid, aid, now)]),
           page.(userFavorites := page.userFavorites + {aid}), false)
  }

  /** The toggle as the source writes it: the removal branch calls
      `doc.ref.delete()`, which the modular store API does not provide, so the
      call fails inside a callback nobody awaits and no document is deleted,
      while the page still drops `aid` from its set. */
  function ToggleFavoriteAsWritten(db: Db, page: DetailPage, aid: Id, user: Option<AuthUser>,
                                   newId: Id, now: Timestamp): (r: Step)
    ensures user.Some? && aid in page.userFavorites ==>
      r.db == db && r.page == page.(userFavorites := page.userFavorites - {aid}) && !r.refetch
    ensures user.None? || aid !in page.userFavorites ==>
      r == ToggleFavorite(db, page, aid, user, newId, now)
  {
    if user.Some? && aid in page.userFavorites then
      Step(db, page.(userFavorites := page.userFavorites - {aid}), false)
    else ToggleFavorite(db, page, aid, user, newId, now)
  }

  /** At most one favorite document per (user, answer) pair. */
  ghost predicate OneFavoritePerPair(favorites: map<Id, Favorite>)
  {
    forall k1, k2 ::
      (k1 in favorites && k2 in favorites
       && favorites[k1].userId == favorites[k2].userId
       && favorites[k1].answerId == favorites[k2].answerId) ==> k1 == k2
  }

  lemma FavoritesOfAdd(favorites: map<Id, Favorite>, uid: Uid, f: Favorite)
    requires f.id !in favorites
    ensures FavoritesOf(favorites[f.id := f], uid)
         == FavoritesOf(favorites, uid) + (if f.userId == uid then {f.answerId} else {})
  {
    var after := favorites[f.id := f];
    forall aid | aid in FavoritesOf(favorites, uid)
      ensures aid in FavoritesOf(after, uid)
    {
      var k :| k in favorites && favorites[k].userId == uid && favorites[k].answerId == aid;
      assert k in after && after[k] == favorites[k];
    }
    if f.userId == uid {
      assert f.id in after && after[f.id] == f;
    }
  }

  /** With the page's set agreeing with the store, a toggle keeps at most one
      favorite per pair and keeps the page in agreement. */
  lemma ToggleFavoriteKeepsAgreement(db: Db, page: DetailPage, aid: Id, user: AuthUser, newId: Id, now: Timestamp)
    requires newId !in db.favorites
    requires FavoritesAgree(db, page, user.uid)
    requires OneFavoritePerPair(db.favorites)
    ensures OneFavoritePerPair(ToggleFavorite(db, page, aid, Some(user), newId, now).db.favorites)
    ensures FavoritesAgree(ToggleFavorite(db, page, aid, Some(user), newId, now).db,
                           ToggleFavorite(db, page, aid, Some(user), newId, now).page, user.uid)
  {
    var r := ToggleFavorite(db, page, aid, Some(user), newId, now);
    if aid in page.userFavorites {
      assert FavoritesOf(r.db.favorites, user.uid) == FavoritesOf(db.favorites, user.uid) - {aid};
    } else {
      FavoritesOfAdd(db.favorites, user.uid, Favorite(newId, user.uid, aid, now));
    }
  }

  /** Two toggles restore the page, and the user's saved answers in the store. */
  lemma ToggleFavoriteTwice(db: Db, page: DetailPage, aid: Id, user: AuthUser,
                            id1: Id, id2: Id, now: Timestamp)
    requires id1 !in db.favorites && id2 !in db.favorites
    requires FavoritesAgree(db, page, user.uid)
    ensures
      var r1 := ToggleFavorite(db, page, aid, Some(user), id1, now);
      var r2 := ToggleFavorite(r1.db, r1.page, aid, Some(user), id2, now);
      r2.page == page && FavoritesOf(r2.db.favorites, user.uid) == FavoritesOf(db.favorites, user.uid)
  {
    var r1 := ToggleFavorite(db, page, aid, Some(user), id1, now);
    var r2 := ToggleFavorite(r1.db, r1.page, aid, Some(user), id2, now);
    if aid in page.userFavorites {
      assert FavoritesOf(r1.db.favorites, user.uid) == FavoritesOf(db.favorites, user.uid) - {aid};
      FavoritesOfAdd(r1.db.favorites, user.uid, Favorite(id2, user.uid, aid, now));
      assert (page.userFavorites - {aid}) + {aid} == page.userFavorites;
    } else {
      FavoritesOfAdd(db.favorites, user.uid, Favorite(id1, user.uid, aid, now));
      assert FavoritesOf(r2.db.favorites, user.uid) == FavoritesOf(r1.db.favorites, user.uid) - {aid};
      assert (page.userFavorites + {aid}) - {aid} == page.userFavorites;
    }
  }

  /** As written, un-saving and re-saving an answer leaves two favorite
      documents for the same pair. */
  lemma AsWrittenFavoriteDuplicates()
    ensures
      var f := Favorite("f1", "u1", "a1", Timestamp(1));
      var db := Db(map[], map[], map[], map["f1" := f], map[]);
      var page := InitialPage.(userFavorites := {"a1"});
      var user := Some(AuthUser("u1", None, None));
      var r1 := ToggleFavoriteAsWritten(db, page, "a1", user, "f2", Timestamp(2));
      var r2 := ToggleFavoriteAsWritten(r1.db, r1.page, "a1", user, "f2", Timestamp(2));
      OneFavoritePerPair(db.favorites) && FavoritesAgree(db, page, "u1")
      && !OneFavoritePerPair(r2.db.favorites)
  {
    var f := Favorite("f1", "u1", "a1", Timestamp(1));
    var db := Db(map[], map[], map[], map["f1" := f], map[]);
    var page := InitialPage.(userFavorites := {"a1"});
    assert "f1" in db.favorites && db.favorites["f1"].answerId == "a1";
    assert FavoritesOf(db.favorites, "u1") == {"a1"};
    var user := Some(AuthUser("u1", None, None));
    var r1 := ToggleFavoriteAsWritten(db, page, "a1", user, "f2", Timestamp(2));
    var r2 := ToggleFavoriteAsWritten(r1.db, r1.page, "a1", user, "f2", Timestamp(2));
    assert "f1" in r2.db.favorites && "f2" in r2.db.favorites;
  }
}
