/** The home page: the question list in one of three orders, its cards, and
    the greeting banner. */
module Home {
  import opened Wrappers
  import opened Text
  import opened Seqs
  import opened Ordering
  import opened Store
  import opened Auth
  import opened QuestionCard

  datatype SortField = CreatedAtField | ViewCountField | AnswersField

  /** `query(questions, orderBy(field, 'desc'), limit(n))`. */
  datatype QuestionQuery = QuestionQuery(field: SortField, descending: bool, limit: nat)

  const InitialSortBy := "newest"
  const PageLimit := 20

  /** The query for a sort option: 'newest' and 'views' have their own
      fields, every other option orders by the answer counter. */
  function SelectQuery(sortBy: string): (q: QuestionQuery)
    ensures q.descending && q.limit == PageLimit
    ensures q.field == CreatedAtField <==> sortBy == "newest"
    ensures q.field == ViewCountField <==> sortBy == "views"
    ensures q.field == AnswersField <==> sortBy != "newest" && sortBy != "views"
  {
    if sortBy == "newest" then QuestionQuery(CreatedAtField, true, PageLimit)
    else if sortBy == "views" then QuestionQuery(ViewCountField, true, PageLimit)
    else QuestionQuery(AnswersField, true, PageLimit)
  }

  /** The page opens on the newest questions. */
  lemma InitialQueryIsNewest()
    ensures SelectQuery(InitialSortBy) == QuestionQuery(CreatedAtField, true, PageLimit)
  {
  }

  function FieldValue(q: Question, f: SortField): Option<int>
  {
    match f
    case CreatedAtField => if q.createdAt.Some? then Some(q.createdAt.value.seconds) else None
    case ViewCountField => q.viewCount
    case AnswersField => q.answers
  }

  function HasField(f: SortField): (p: Question -> bool)
    ensures forall q :: p(q) <==> FieldValue(q, f).Some?
  {
    q => FieldValue(q, f).Some?
  }

  function KeyOf(f: SortField): Question -> int
  {
    q => FieldValue(q, f).GetOr(0)
  }

  /** What the store returns for a descending query over the listing `all`:
      documents lacking the field are left out, the rest are ordered by it
      and cut at the limit. */
  function RunQuery(all: seq<Question>, query: QuestionQuery): (r: seq<Question>)
    requires query.descending
    ensures |r| <= query.limit
    ensures SortedDesc(r, KeyOf(query.field))
    ensures forall q :: q in r ==> q in all && FieldValue(q, query.field).Some?
    ensures multiset(r) <= multiset(Keep(all, HasField(query.field)))
  {
    var kept := Keep(all, HasField(query.field));
    var sorted := SortDesc(kept, KeyOf(query.field));
    SortDescMembers(kept, KeyOf(query.field));
    if query.limit < |sorted| then
      SortedPrefix(sorted, query.limit, KeyOf(query.field));
      assert sorted == sorted[..query.limit] + sorted[query.limit..];
      sorted[..query.limit]
    else sorted
  }

  /** The result is the top of the ordering: a question with the field that
      did not make it ranks no higher than any question shown. */
  lemma {:induction false} RunQueryIsTop(all: seq<Question>, query: QuestionQuery, x: Question)
    requires query.descending
    requires x in all && FieldValue(x, query.field).Some? && x !in RunQuery(all, query)
    ensures |RunQuery(all, query)| == query.limit
    ensures forall k :: 0 <= k < |RunQuery(all, query)| ==>
      KeyOf(query.field)(x) <= KeyOf(query.field)(RunQuery(all, query)[k])
  {
    var key := KeyOf(query.field);
    var kept := Keep(all, HasField(query.field));
    var sorted := SortDesc(kept, key);
    var r := RunQuery(all, query);
    assert x in kept;
    assert x in multiset(sorted);
    var i :| 0 <= i < |sorted| && sorted[i] == x;
    forall k | 0 <= k < |r|
      ensures key(x) <= key(r[k])
    {
      assert r[k] == sorted[k];
    }
  }

  /** The card for a listed question, with the list page's defaults
      (`x || 0` on a number is `x` unless it is missing). */
  function CardOf(q: Question): (c: Card)
    ensures c.id == q.id && c.title == q.title && c.description == q.description
    ensures c.author == q.authorName && c.createdAt == q.createdAt
    ensures c.tags == q.tags.GetOr([])
    ensures c.viewCount == q.viewCount.GetOr(0) && c.answerCount == q.answers.GetOr(0)
    ensures c.status == Or(q.status, "open")
  {
    Card(q.id, q.title, q.description, q.authorName, q.tags.GetOr([]),
         q.createdAt, q.viewCount.GetOr(0), q.answers.GetOr(0), Or(q.status, "open"))
  }

  /** A question with none of the optional fields still renders a complete
      card: no chips, no badge, "0 answers", and the open colour. */
  lemma BareQuestionCard(q: Question)
    requires q.tags.None? && q.answers.None? && q.status.None?
    ensures VisibleTags(CardOf(q).tags) == [] && Overflow(CardOf(q).tags).None?
    ensures CardOf(q).answerCount == 0 && AnswerLabel(CardOf(q).answerCount) == "answers"
    ensures StatusColor(CardOf(q).status) == Some(OpenColor)
  {
  }

  /** The banner above the list: the greeting and where its button leads. */
  datatype Banner = Banner(greeting: string, action: string)

  /** `user.displayName || user.email`, where an absent email renders as "null". */
  function NameOrEmail(u: AuthUser): (r: string)
    ensures u.displayName.Some? && u.displayName.value != "" ==> r == u.displayName.value
    ensures (u.displayName.None? || u.displayName.value == "") && u.email.Some? ==> r == u.email.value
    ensures (u.displayName.None? || u.displayName.value == "") && u.email.None? ==> r == "null"
  {
    if u.displayName.Some? && u.displayName.value != "" then u.displayName.value
    else if u.email.Some? then u.email.value
    else "null"
  }

  function BannerFor(user: Option<AuthUser>): (b: Banner)
    ensures b.action == "/ask" <==> user.Some?
    ensures b.action == "/signup" <==> user.None?
    ensures user.None? ==> b.greeting == "Welcome!"
  {
    if user.Some? then Banner("Welcome, " + NameOrEmail(user.value) + "!", "/ask")
    else Banner("Welcome!", "/signup")
  }

  /** The banner as written: the page reads a `user` field the auth context
      does not provide, so it always sees no user. */
  function HomeBannerAsWritten(ctx: AuthState): (b: Banner)
    ensures b == BannerFor(None)
  {
    var user: Option<AuthUser> := None;
    BannerFor(user)
  }

  /** A signed-in user is greeted as a visitor and sent to sign up. */
  lemma AsWrittenBannerIgnoresSignIn(ctx: AuthState)
    requires ctx.currentUser.Some?
    ensures HomeBannerAsWritten(ctx).action == "/signup"
    ensures HomeBannerAsWritten(ctx) != BannerFor(ctx.currentUser)
  {
  }

  /** The banner reading the context's `currentUser`. */
  function HomeBanner(ctx: AuthState): (b: Banner)
    ensures b.action == "/ask" <==> ctx.currentUser.Some?
  {
    BannerFor(ctx.currentUser)
  }

  /** After any state-change event, the corrected banner offers to ask a
      question exactly when the event carried a user. */
  lemma BannerFollowsAuth(s: AuthState, user: Option<AuthUser>, users: map<Uid, UserProfile>, readOk: bool)
    ensures HomeBanner(OnAuthStateChanged(s, user, users, readOk)).action == (if user.Some? then "/ask" else "/signup")
  {
  }
}
