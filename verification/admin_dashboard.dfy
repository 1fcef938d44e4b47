/** The administrator's dashboard: collection counts, the recent-activity
    feed, the moderation lists with their delete and role-change actions,
    and the gate that keeps everyone but administrators out. */
module AdminDashboard {
  import opened Wrappers
  import opened Text
  import opened Seqs
  import opened Ordering
  import opened Store

  /** A row of the users list: the document id next to the profile data. */
  datatype Member = Member(id: Id, profile: UserProfile)

  function MemberId(u: Member): Id { u.id }

  /** The users collection as the list rows it is read into. */
  function Members(users: map<Uid, UserProfile>): (r: map<Id, Member>)
    ensures r.Keys == users.Keys
    ensures forall k :: k in r ==> r[k] == Member(k, users[k])
  {
    map k | k in users :: Member(k, users[k])
  }

  datatype Stats = Stats(totalUsers: nat, totalQuestions: nat, totalAnswers: nat, totalMessages: nat)

  datatype ActivityKind = QuestionKind | AnswerKind

  datatype Activity = Activity(id: Id, kind: ActivityKind, title: string, author: string, timestamp: Option<Timestamp>)

  datatype DeleteKind = UserDoc | QuestionDoc | AnswerDoc

  /** The pending confirmation of a delete. */
  datatype Pending = Pending(kind: DeleteKind, id: Id)

  datatype AdminPage = AdminPage(
    stats: Stats,
    users: seq<Member>,
    questions: seq<Question>,
    answers: seq<Answer>,
    recentActivity: seq<Activity>,
    loading: bool,
    deleteConfirm: Option<Pending>,
    showUserDialog: bool)

  const InitialAdminPage := AdminPage(Stats(0, 0, 0, 0), [], [], [], [], true, None, false)

  const RecentPerKind := 5
  const TabSize := 10
  const SnippetLength := 50

  /** The four query results a fetch reads: all users, the questions and the
      answers ordered by `createdAt` descending, and all messages. */
  datatype Fetched = Fetched(users: seq<Member>, questions: seq<Question>, answers: seq<Answer>, messages: seq<Message>)

  /** The collections the dashboard listens to while an administrator is present. */
  const Listened: set<string> := {"questions", "answers", "users"}

  /* ---------- recent activity ---------- */

  function QuestionEntry(q: Question): (e: Activity)
    ensures e.id == q.id && e.kind == QuestionKind && e.timestamp == q.createdAt
    ensures e.title == Or(q.title, "Untitled")
    ensures e.author == Or(q.authorName, "Anonymous")
  {
    Activity(q.id, QuestionKind, Or(q.title, "Untitled"), Or(q.authorName, "Anonymous"), q.createdAt)
  }

  function AnswerEntry(a: Answer): (e: Activity)
    ensures e.id == a.id && e.kind == AnswerKind && e.timestamp == a.createdAt
    ensures e.author == Or(a.authorName, "Anonymous")
  {
    Activity(a.id, AnswerKind, Take(a.content.GetOr(""), SnippetLength) + "...", Or(a.authorName, "Anonymous"), a.createdAt)
  }

  /** An answer's feed title is a prefix of at most 50 characters of its
      content, followed by an ellipsis; the whole content when it is short. */
  lemma AnswerEntryTitle(a: Answer)
    ensures var t := AnswerEntry(a).title;
      && |t| == (if |a.content.GetOr("")| < SnippetLength then |a.content.GetOr("")| else SnippetLength) + 3
      && t[|t| - 3..] == "..."
      && t[..|t| - 3] <= a.content.GetOr("")
      && (|a.content.GetOr("")| <= SnippetLength ==> t == a.content.GetOr("") + "...")
  {
  }

  /** `a.timestamp?.seconds || 0`. */
  function ActivitySeconds(e: Activity): int
  {
    if e.timestamp.Some? then e.timestamp.value.seconds else 0
  }

  function IsKind(kind: ActivityKind): Activity -> bool
  {
    (e: Activity) => e.kind == kind
  }

  /** The feed: the first five questions and first five answers as entries,
      merged and sorted newest first. */
  function RecentActivity(questions: seq<Question>, answers: seq<Answer>): (r: seq<Activity>)
    ensures SortedDesc(r, ActivitySeconds)
    ensures multiset(r) == multiset(Map(Take(questions, RecentPerKind), QuestionEntry) + Map(Take(answers, RecentPerKind), AnswerEntry))
  {
    SortDesc(Map(Take(questions, RecentPerKind), QuestionEntry) + Map(Take(answers, RecentPerKind), AnswerEntry), ActivitySeconds)
  }

  /** The entries of one kind in the feed are, up to order, exactly the
      entries of the first five documents of that kind. */
  lemma {:induction false} RecentActivityKinds(questions: seq<Question>, answers: seq<Answer>)
    ensures var r := RecentActivity(questions, answers);
      && multiset(Keep(r, IsKind(QuestionKind))) == multiset(Map(Take(questions, RecentPerKind), QuestionEntry))
      && multiset(Keep(r, IsKind(AnswerKind))) == multiset(Map(Take(answers, RecentPerKind), AnswerEntry))
  {
    var qe := Map(Take(questions, RecentPerKind), QuestionEntry);
    var ae := Map(Take(answers, RecentPerKind), AnswerEntry);
    var r := RecentActivity(questions, answers);
    KeepAppend(qe, ae, IsKind(QuestionKind));
    KeepAppend(qe, ae, IsKind(AnswerKind));
    KeepAll(qe, IsKind(QuestionKind));
    KeepNone(ae, IsKind(QuestionKind));
    KeepNone(qe, IsKind(AnswerKind));
    KeepAll(ae, IsKind(AnswerKind));
    KeepPermutation(r, qe + ae, IsKind(QuestionKind));
    KeepPermutation(r, qe + ae, IsKind(AnswerKind));
  }

  /** At most five entries of each kind, and nothing else. */
  lemma RecentActivityCounts(questions: seq<Question>, answers: seq<Answer>)
    ensures var r := RecentActivity(questions, answers);
      && |Keep(r, IsKind(QuestionKind))| == (if |questions| < RecentPerKind then |questions| else RecentPerKind)
      && |Keep(r, IsKind(AnswerKind))| == (if |answers| < RecentPerKind then |answers| else RecentPerKind)
      && |r| == |Keep(r, IsKind(QuestionKind))| + |Keep(r, IsKind(AnswerKind))|
  {
    var r := RecentActivity(questions, answers);
    RecentActivityKinds(questions, answers);
    assert |Keep(r, IsKind(QuestionKind))| == |multiset(Keep(r, IsKind(QuestionKind)))|;
    assert |Keep(r, IsKind(AnswerKind))| == |multiset(Keep(r, IsKind(AnswerKind)))|;
    assert |r| == |multiset(r)|;
  }

  /** An entry of a kind whose entries are, up to order, a mapped prefix of
      `s` is built from one of the first five elements of `s`. */
  lemma {:induction false} KindSource<T>(r: seq<Activity>, kind: ActivityKind, s: seq<T>, f: T -> Activity)
    requires multiset(Keep(r, IsKind(kind))) == multiset(Map(Take(s, RecentPerKind), f))
    ensures forall e :: e in r && e.kind == kind ==> exists k :: 0 <= k < |s| && k < RecentPerKind && e == f(s[k])
  {
    forall e | e in r && e.kind == kind
      ensures exists k :: 0 <= k < |s| && k < RecentPerKind && e == f(s[k])
    {
      assert IsKind(kind)(e);
      assert e in Keep(r, IsKind(kind));
      InMappedPrefix(s, RecentPerKind, f, e);
    }
  }

  /** An element of a mapped prefix comes from one of the first `n` elements. */
  lemma {:induction false} InMappedPrefix<T, U>(s: seq<T>, n: nat, f: T -> U, e: U)
    requires e in multiset(Map(Take(s, n), f))
    ensures exists k :: 0 <= k < |s| && k < n && e == f(s[k])
  {
    var t := Take(s, n);
    var k :| 0 <= k < |t| && Map(t, f)[k] == e;
    assert t[k] == s[k];
  }

  /** Every entry is built from one of the first five documents of its list. */
  lemma RecentActivitySources(questions: seq<Question>, answers: seq<Answer>)
    ensures forall e :: e in RecentActivity(questions, answers) && e.kind == QuestionKind ==>
      exists k :: 0 <= k < |questions| && k < RecentPerKind && e == QuestionEntry(questions[k])
    ensures forall e :: e in RecentActivity(questions, answers) && e.kind == AnswerKind ==>
      exists k :: 0 <= k < |answers| && k < RecentPerKind && e == AnswerEntry(answers[k])
  {
    var r := RecentActivity(questions, answers);
    RecentActivityKinds(questions, answers);
    KindSource(r, QuestionKind, questions, QuestionEntry);
    KindSource(r, AnswerKind, answers, AnswerEntry);
  }

  /* ---------- fetching and the gate ---------- */

  /** `fetchData` once every read has succeeded. */
  function FetchData(page: AdminPage, f: Fetched): (r: AdminPage)
    ensures r.users == f.users && r.questions == f.questions && r.answers == f.answers
    ensures r.stats == Stats(|f.users|, |f.questions|, |f.answers|, |f.messages|)
    ensures r.recentActivity == RecentActivity(f.questions, f.answers)
    ensures !r.loading
    ensures r.deleteConfirm == page.deleteConfirm && r.showUserDialog == page.showUserDialog
  {
    page.(
      users := f.users,
      questions := f.questions,
      answers := f.answers,
      stats := Stats(|f.users|, |f.questions|, |f.answers|, |f.messages|),
      recentActivity := RecentActivity(f.questions, f.answers),
      loading := false)
  }

  /** The documents of `m` that have a `createdAt` field: ordering by that
      field leaves the others out of the query result. */
  function Dated<T>(m: map<Id, T>, createdAt: T -> Option<Timestamp>): (r: map<Id, T>)
    ensures forall k :: k in r <==> k in m && createdAt(m[k]).Some?
    ensures forall k :: k in r ==> r[k] == m[k]
  {
    map k | k in m && createdAt(m[k]).Some? :: m[k]
  }

  function QuestionCreatedAt(q: Question): Option<Timestamp> { q.createdAt }
  function AnswerCreatedAt(a: Answer): Option<Timestamp> { a.createdAt }

  /** `createdAt.seconds`, read as 0 when absent (never, for a dated document). */
  function QuestionSeconds(q: Question): int
  {
    if q.createdAt.Some? then q.createdAt.value.seconds else 0
  }

  function AnswerSeconds(a: Answer): int
  {
    if a.createdAt.Some? then a.createdAt.value.seconds else 0
  }

  /** The query results the store returns for `db`: the dated questions and
      answers come newest first. */
  ghost predicate FetchedFrom(f: Fetched, db: Db)
  {
    && IsListing(f.users, Members(db.users), MemberId)
    && IsListing(f.questions, Dated(db.questions, QuestionCreatedAt), QuestionId)
    && SortedDesc(f.questions, QuestionSeconds)
    && IsListing(f.answers, Dated(db.answers, AnswerCreatedAt), AnswerId)
    && SortedDesc(f.answers, AnswerSeconds)
    && IsListing(f.messages, db.messages, MessageId)
  }

  /** In a list sorted by non-increasing key, each of the first `n` elements
      ranks at least as high as any element left out of them. */
  lemma {:induction false} HeadOutranks<T>(s: seq<T>, key: T -> int, n: nat, y: T, x: T)
    requires SortedDesc(s, key)
    requires y in Take(s, n) && x in s && x !in Take(s, n)
    ensures key(y) >= key(x)
  {
    var t := Take(s, n);
    var j :| 0 <= j < |t| && t[j] == y;
    var k :| 0 <= k < |s| && s[k] == x;
    assert forall i :: 0 <= i < |t| ==> t[i] == s[i];
    assert k >= |t|;
    assert y == s[j];
  }

  /** The same for a listing of `m`: the head outranks every document of `m`
      outside it. */
  lemma {:induction false} ListedHeadOutranks<T>(docs: seq<T>, m: map<Id, T>, idOf: T -> Id, key: T -> int, n: nat, y: T, id: Id)
    requires IsListing(docs, m, idOf) && SortedDesc(docs, key)
    requires y in Take(docs, n) && id in m && m[id] !in Take(docs, n)
    ensures key(y) >= key(m[id])
  {
    var j :| 0 <= j < |docs| && idOf(docs[j]) == id;
    assert docs[j] == m[id];
    HeadOutranks(docs, key, n, y, docs[j]);
  }

  /** A feed entry of one kind, built from one of the first five documents
      of a sorted listing, is at least as recent as every listed document
      outside those five. */
  lemma {:induction false} EntryOutranks<T>(r: seq<Activity>, kind: ActivityKind, docs: seq<T>, entry: T -> Activity,
                                            m: map<Id, T>, idOf: T -> Id, key: T -> int, e: Activity, id: Id)
    requires forall x :: ActivitySeconds(entry(x)) == key(x)
    requires forall e :: e in r && e.kind == kind ==> exists k :: 0 <= k < |docs| && k < RecentPerKind && e == entry(docs[k])
    requires IsListing(docs, m, idOf) && SortedDesc(docs, key)
    requires e in r && e.kind == kind && id in m && m[id] !in Take(docs, RecentPerKind)
    ensures ActivitySeconds(e) >= key(m[id])
  {
    var k :| 0 <= k < |docs| && k < RecentPerKind && e == entry(docs[k]);
    assert Take(docs, RecentPerKind)[k] == docs[k];
    ListedHeadOutranks(docs, m, idOf, key, RecentPerKind, docs[k], id);
  }

  /** Each question entry of the feed is at least as recent as every dated
      question that did not make the first five. */
  lemma FeedHoldsNewestQuestions(f: Fetched, db: Db)
    requires FetchedFrom(f, db)
    ensures forall e, id ::
      e in RecentActivity(f.questions, f.answers) && e.kind == QuestionKind
      && id in Dated(db.questions, QuestionCreatedAt) && db.questions[id] !in Take(f.questions, RecentPerKind)
      ==> ActivitySeconds(e) >= QuestionSeconds(db.questions[id])
  {
    var r := RecentActivity(f.questions, f.answers);
    var m := Dated(db.questions, QuestionCreatedAt);
    RecentActivitySources(f.questions, f.answers);
    forall e, id | e in r && e.kind == QuestionKind && id in m && m[id] !in Take(f.questions, RecentPerKind)
      ensures ActivitySeconds(e) >= QuestionSeconds(m[id])
    {
      EntryOutranks(r, QuestionKind, f.questions, QuestionEntry, m, QuestionId, QuestionSeconds, e, id);
    }
  }

  /** The same for answers. */
  lemma FeedHoldsNewestAnswers(f: Fetched, db: Db)
    requires FetchedFrom(f, db)
    ensures forall e, id ::
      e in RecentActivity(f.questions, f.answers) && e.kind == AnswerKind
      && id in Dated(db.answers, AnswerCreatedAt) && db.answers[id] !in Take(f.answers, RecentPerKind)
      ==> ActivitySeconds(e) >= AnswerSeconds(db.answers[id])
  {
    var r := RecentActivity(f.questions, f.answers);
    var m := Dated(db.answers, AnswerCreatedAt);
    RecentActivitySources(f.questions, f.answers);
    forall e, id | e in r && e.kind == AnswerKind && id in m && m[id] !in Take(f.answers, RecentPerKind)
      ensures ActivitySeconds(e) >= AnswerSeconds(m[id])
    {
      EntryOutranks(r, AnswerKind, f.answers, AnswerEntry, m, AnswerId, AnswerSeconds, e, id);
    }
  }

  /** The counters are the collection sizes; questions and answers without a
      `createdAt` are not counted. */
  lemma FetchedStats(page: AdminPage, f: Fetched, db: Db)
    requires FetchedFrom(f, db)
    ensures var s := FetchData(page, f).stats;
      && s.totalUsers == |db.users|
      && s.totalQuestions == |Dated(db.questions, QuestionCreatedAt)|
      && s.totalAnswers == |Dated(db.answers, AnswerCreatedAt)|
      && s.totalMessages == |db.messages|
    ensures (forall k :: k in db.questions ==> db.questions[k].createdAt.Some?) ==>
      FetchData(page, f).stats.totalQuestions == |db.questions|
    ensures (forall k :: k in db.answers ==> db.answers[k].createdAt.Some?) ==>
      FetchData(page, f).stats.totalAnswers == |db.answers|
  {
    MembersCount(f.users, db.users);
    DatedCount(f.questions, db.questions, QuestionCreatedAt, QuestionId);
    DatedCount(f.answers, db.answers, AnswerCreatedAt, AnswerId);
    ListingSize(f.messages, db.messages, MessageId);
  }

  lemma MembersCount(rows: seq<Member>, users: map<Uid, UserProfile>)
    requires IsListing(rows, Members(users), MemberId)
    ensures |rows| == |users|
  {
    ListingSize(rows, Members(users), MemberId);
    assert |Members(users)| == |Members(users).Keys| == |users.Keys| == |users|;
  }

  /** A listing of the dated documents counts them, and counts the whole
      collection when every document is dated. */
  lemma DatedCount<T>(docs: seq<T>, m: map<Id, T>, createdAt: T -> Option<Timestamp>, idOf: T -> Id)
    requires IsListing(docs, Dated(m, createdAt), idOf)
    ensures |docs| == |Dated(m, createdAt)|
    ensures (forall k :: k in m ==> createdAt(m[k]).Some?) ==> |docs| == |m|
  {
    ListingSize(docs, Dated(m, createdAt), idOf);
    if forall k :: k in m ==> createdAt(m[k]).Some? {
      assert Dated(m, createdAt) == m;
    }
  }

  /** The effect run when `isAdmin` changes: the page after the initial fetch
      and the collections listened to. */
  function OnAdminChange(page: AdminPage, isAdmin: bool, f: Fetched): (r: (AdminPage, set<string>))
    ensures !isAdmin ==> r.0 == page && r.1 == {}
    ensures isAdmin ==> r.0 == FetchData(page, f) && r.1 == Listened
  {
    if isAdmin then (FetchData(page, f), Listened) else (page, {})
  }

  datatype AdminView = AccessDenied | LoadingDashboard | Dashboard

  function View(page: AdminPage, isAdmin: bool): (v: AdminView)
    ensures v == Dashboard ==> isAdmin && !page.loading
    ensures !isAdmin ==> v == AccessDenied
    ensures isAdmin && page.loading ==> v == LoadingDashboard
  {
    if !isAdmin then AccessDenied
    else if page.loading then LoadingDashboard
    else Dashboard
  }

  /** A non-administrator sees only the access-denied view and causes no
      reads and no listeners, whatever the store holds. */
  lemma NonAdminSeesNothing(page: AdminPage, f: Fetched, g: Fetched)
    ensures View(OnAdminChange(page, false, f).0, false) == AccessDenied
    ensures OnAdminChange(page, false, f) == OnAdminChange(page, false, g)
    ensures OnAdminChange(page, false, f).1 == {}
  {
  }

  /** An administrator's dashboard is shown once the fetch completes. */
  lemma AdminSeesDashboard(page: AdminPage, f: Fetched)
    ensures View(OnAdminChange(page, true, f).0, true) == Dashboard
  {
  }

  /* ---------- moderation actions ---------- */

  /** `handleDeleteQuestion`; `ok` is whether the store accepted the delete. */
  function DeleteQuestion(db: Db, page: AdminPage, id: Id, ok: bool): (r: (Db, AdminPage))
    ensures !ok ==> r == (db, page)
    ensures ok ==> r.0 == db.(questions := db.questions - {id})
    ensures ok ==> r.1 == page.(questions := r.1.questions, deleteConfirm := None)
    ensures ok ==> forall q :: q in r.1.questions <==> q in page.questions && q.id != id
    ensures ok ==> IsSubsequence(r.1.questions, page.questions)
  {
    if ok then
      KeepIsSubsequence(page.questions, NotId(QuestionId, id));
      (db.(questions := db.questions - {id}), page.(questions := Keep(page.questions, NotId(QuestionId, id)), deleteConfirm := None))
    else (db, page)
  }

  /** `handleDeleteAnswer`. */
  function DeleteAnswer(db: Db, page: AdminPage, id: Id, ok: bool): (r: (Db, AdminPage))
    ensures !ok ==> r == (db, page)
    ensures ok ==> r.0 == db.(answers := db.answers - {id})
    ensures ok ==> r.1 == page.(answers := r.1.answers, deleteConfirm := None)
    ensures ok ==> forall a :: a in r.1.answers <==> a in page.answers && a.id != id
    ensures ok ==> IsSubsequence(r.1.answers, page.answers)
  {
    if ok then
      KeepIsSubsequence(page.answers, NotId(AnswerId, id));
      (db.(answers := db.answers - {id}), page.(answers := Keep(page.answers, NotId(AnswerId, id)), deleteConfirm := None))
    else (db, page)
  }

  /** `handleDeleteUser`; it also closes the user dialog. */
  function DeleteUser(db: Db, page: AdminPage, id: Id, ok: bool): (r: (Db, AdminPage))
    ensures !ok ==> r == (db, page)
    ensures ok ==> r.0 == db.(users := db.users - {id})
    ensures ok ==> r.1 == page.(users := r.1.users, deleteConfirm := None, showUserDialog := false)
    ensures ok ==> forall u :: u in r.1.users <==> u in page.users && u.id != id
    ensures ok ==> IsSubsequence(r.1.users, page.users)
  {
    if ok then
      KeepIsSubsequence(page.users, NotId(MemberId, id));
      (db.(users := db.users - {id}), page.(users := Keep(page.users, NotId(MemberId, id)), deleteConfirm := None, showUserDialog := false))
    else (db, page)
  }

  /** The confirm button of the delete dialog: dispatch on the pending kind. */
  function ConfirmDelete(db: Db, page: AdminPage, ok: bool): (r: (Db, AdminPage))
    ensures page.deleteConfirm.None? ==> r == (db, page)
    ensures ok && page.deleteConfirm.Some? ==> r.1.deleteConfirm.None?
    ensures forall id :: page.deleteConfirm == Some(Pending(QuestionDoc, id)) ==> r == DeleteQuestion(db, page, id, ok)
    ensures forall id :: page.deleteConfirm == Some(Pending(AnswerDoc, id)) ==> r == DeleteAnswer(db, page, id, ok)
    ensures forall id :: page.deleteConfirm == Some(Pending(UserDoc, id)) ==> r == DeleteUser(db, page, id, ok)
  {
    match page.deleteConfirm
    case None => (db, page)
    case Some(Pending(UserDoc, id)) => DeleteUser(db, page, id, ok)
    case Some(Pending(QuestionDoc, id)) => DeleteQuestion(db, page, id, ok)
    case Some(Pending(AnswerDoc, id)) => DeleteAnswer(db, page, id, ok)
  }

  /** Filtering a deleted question out of a list that exactly lists `m`
      lists `m` without it; for the fetched list of dated questions, it
      still lists the dated questions of the store. */
  lemma DeleteQuestionKeepsListing(db: Db, page: AdminPage, id: Id, m: map<Id, Question>)
    requires IsListing(page.questions, m, QuestionId)
    ensures IsListing(DeleteQuestion(db, page, id, true).1.questions, m - {id}, QuestionId)
    ensures m == Dated(db.questions, QuestionCreatedAt) ==>
      IsListing(DeleteQuestion(db, page, id, true).1.questions,
                Dated(DeleteQuestion(db, page, id, true).0.questions, QuestionCreatedAt), QuestionId)
  {
    KeepListing(page.questions, m, QuestionId, id);
    DatedRemove(db.questions, QuestionCreatedAt, id);
  }

  /** The same for answers. */
  lemma DeleteAnswerKeepsListing(db: Db, page: AdminPage, id: Id, m: map<Id, Answer>)
    requires IsListing(page.answers, m, AnswerId)
    ensures IsListing(DeleteAnswer(db, page, id, true).1.answers, m - {id}, AnswerId)
    ensures m == Dated(db.answers, AnswerCreatedAt) ==>
      IsListing(DeleteAnswer(db, page, id, true).1.answers,
                Dated(DeleteAnswer(db, page, id, true).0.answers, AnswerCreatedAt), AnswerId)
  {
    KeepListing(page.answers, m, AnswerId, id);
    DatedRemove(db.answers, AnswerCreatedAt, id);
  }

  /** The same for the users list, which lists every profile. */
  lemma DeleteUserKeepsListing(db: Db, page: AdminPage, id: Id)
    requires IsListing(page.users, Members(db.users), MemberId)
    ensures IsListing(DeleteUser(db, page, id, true).1.users, Members(DeleteUser(db, page, id, true).0.users), MemberId)
  {
    KeepListing(page.users, Members(db.users), MemberId, id);
    assert Members(db.users - {id}) == Members(db.users) - {id};
  }

  /** Deleting a document and then selecting the dated ones is selecting
      and then deleting. */
  lemma DatedRemove<T>(m: map<Id, T>, createdAt: T -> Option<Timestamp>, id: Id)
    ensures Dated(m - {id}, createdAt) == Dated(m, createdAt) - {id}
  {
  }

  function WithRole(role: string): Member -> Member
  {
    (u: Member) => u.(profile := u.profile.(role := role))
  }

  /** `handleChangeUserRole`: the store rejects an update of a missing
      document, and then nothing changes locally either. */
  function ChangeUserRole(db: Db, page: AdminPage, id: Id, role: string, ok: bool): (r: (Db, AdminPage))
    ensures !(ok && id in db.users) ==> r == (db, page)
    ensures ok && id in db.users ==> r.0 == db.(users := db.users[id := db.users[id].(role := role)])
    ensures r.1 == page.(users := r.1.users) && |r.1.users| == |page.users|
    ensures ok && id in db.users ==> forall k :: 0 <= k < |page.users| ==>
      r.1.users[k] == (if page.users[k].id == id then Member(id, page.users[k].profile.(role := role)) else page.users[k])
  {
    if ok && id in db.users then
      (db.(users := db.users[id := db.users[id].(role := role)]), page.(users := UpdateWhere(page.users, MemberId, id, WithRole(role))))
    else (db, page)
  }

  /** The local users list stays an exact listing of the store across a role change. */
  lemma ChangeRoleKeepsListing(db: Db, page: AdminPage, id: Id, role: string, ok: bool)
    requires IsListing(page.users, Members(db.users), MemberId)
    ensures var r := ChangeUserRole(db, page, id, role, ok);
      IsListing(r.1.users, Members(r.0.users), MemberId)
  {
    if ok && id in db.users {
      UpdateListing(page.users, Members(db.users), MemberId, id, WithRole(role));
      MembersWithRole(db.users, id, role);
    }
  }

  lemma MembersWithRole(users: map<Uid, UserProfile>, id: Id, role: string)
    requires id in users
    ensures Members(users[id := users[id].(role := role)]) == Members(users)[id := WithRole(role)(Members(users)[id])]
  {
  }

  /** The moderation tabs show the first ten rows of each list. */
  function QuestionsTab(page: AdminPage): (r: seq<Question>)
    ensures |r| <= TabSize && r <= page.questions
    ensures |page.questions| <= TabSize ==> r == page.questions
    ensures |r| == if |page.questions| < TabSize then |page.questions| else TabSize
  {
    Take(page.questions, TabSize)
  }

  function AnswersTab(page: AdminPage): (r: seq<Answer>)
    ensures |r| <= TabSize && r <= page.answers
    ensures |page.answers| <= TabSize ==> r == page.answers
    ensures |r| == if |page.answers| < TabSize then |page.answers| else TabSize
  {
    Take(page.answers, TabSize)
  }

  /** After a fetch the tabs hold the newest documents: a dated question or
      answer missing from its tab is no newer than any row shown. */
  lemma TabsHoldNewest(page: AdminPage, f: Fetched, db: Db)
    requires FetchedFrom(f, db)
    ensures forall q, id ::
      q in QuestionsTab(FetchData(page, f))
      && id in Dated(db.questions, QuestionCreatedAt) && db.questions[id] !in QuestionsTab(FetchData(page, f))
      ==> QuestionSeconds(q) >= QuestionSeconds(db.questions[id])
    ensures forall a, id ::
      a in AnswersTab(FetchData(page, f))
      && id in Dated(db.answers, AnswerCreatedAt) && db.answers[id] !in AnswersTab(FetchData(page, f))
      ==> AnswerSeconds(a) >= AnswerSeconds(db.answers[id])
  {
    forall q, id | q in QuestionsTab(FetchData(page, f))
        && id in Dated(db.questions, QuestionCreatedAt) && db.questions[id] !in QuestionsTab(FetchData(page, f))
      ensures QuestionSeconds(q) >= QuestionSeconds(db.questions[id])
    {
      ListedHeadOutranks(f.questions, Dated(db.questions, QuestionCreatedAt), QuestionId, QuestionSeconds, TabSize, q, id);
    }
    forall a, id | a in AnswersTab(FetchData(page, f))
        && id in Dated(db.answers, AnswerCreatedAt) && db.answers[id] !in AnswersTab(FetchData(page, f))
      ensures AnswerSeconds(a) >= AnswerSeconds(db.answers[id])
    {
      ListedHeadOutranks(f.answers, Dated(db.answers, AnswerCreatedAt), AnswerId, AnswerSeconds, TabSize, a, id);
    }
  }
}
