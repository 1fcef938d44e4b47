/** The profile page: the edit form for display name and bio, the avatar
    fallback, and the counts of the user's own questions and answers. */
module Profile {
  import opened Wrappers
  import opened Text
  import opened Store
  import opened Header

  /** The page's local state. */
  datatype ProfileForm = ProfileForm(editing: bool, displayName: string, bio: string, loading: bool)

  const InitialForm := ProfileForm(false, "", "", false)

  /** The effect that copies a (new) context profile into the form. */
  function LoadForm(form: ProfileForm, profile: Option<UserProfile>): (r: ProfileForm)
    ensures profile.None? ==> r == form
    ensures profile.Some? ==> r == form.(displayName := profile.value.displayName, bio := profile.value.bio)
  {
    if profile.Some? then form.(displayName := profile.value.displayName, bio := Or(Some(profile.value.bio), ""))
    else form
  }

  /** `handleUpdateProfile`. The store rejects the update when `ok` is false
      or the profile document is missing; the rejection is not caught, so the
      form stays in editing mode, but `loading` is reset either way. */
  function HandleUpdateProfile(users: map<Uid, UserProfile>, form: ProfileForm, user: Option<AuthUser>, ok: bool)
    : (r: (map<Uid, UserProfile>, ProfileForm))
    ensures user.None? || IsBlank(form.displayName) ==> r == (users, form)
    ensures user.Some? && !IsBlank(form.displayName) ==>
      r.1 == form.(editing := r.1.editing, loading := false)
    ensures user.Some? && !IsBlank(form.displayName) && ok && user.value.uid in users ==>
      && !r.1.editing
      && user.value.uid in r.0 && r.0 == users[user.value.uid := r.0[user.value.uid]]
      && r.0[user.value.uid] == users[user.value.uid].(displayName := Trim(form.displayName), bio := Trim(form.bio))
    ensures !(ok && user.Some? && user.value.uid in users) ==> r.0 == users && r.1.editing == form.editing
  {
    if user.None? || IsBlank(form.displayName) then (users, form)
    else
      var uid := user.value.uid;
      if ok && uid in users then
        (users[uid := users[uid].(displayName := Trim(form.displayName), bio := Trim(form.bio))],
         form.(editing := false, loading := false))
      else (users, form.(loading := false))
  }

  /** A saved display name is trimmed and never blank, and a saved bio is trimmed. */
  lemma SavedNameIsClean(users: map<Uid, UserProfile>, form: ProfileForm, user: AuthUser)
    requires !IsBlank(form.displayName) && user.uid in users
    ensures var p := HandleUpdateProfile(users, form, Some(user), true).0[user.uid];
      && !IsBlank(p.displayName) && Trim(p.displayName) == p.displayName && Trim(p.bio) == p.bio
  {
    TrimmedIsBlankIff(form.displayName);
    TrimIdempotent(form.displayName);
    TrimIdempotent(form.bio);
  }

  /** Saving a clean profile without editing it writes the values it
      already has; with `SavedNameIsClean`, a second save is a no-op. */
  lemma UneditedSaveChangesNothing(users: map<Uid, UserProfile>, form: ProfileForm, user: AuthUser)
    requires user.uid in users
    requires !IsBlank(users[user.uid].displayName)
    requires Trim(users[user.uid].displayName) == users[user.uid].displayName
    requires Trim(users[user.uid].bio) == users[user.uid].bio
    ensures HandleUpdateProfile(users, LoadForm(form, Some(users[user.uid])), Some(user), true).0 == users
  {
    var p := users[user.uid];
    var f := LoadForm(form, Some(p));
    assert f.displayName == p.displayName && f.bio == p.bio;
    assert users[user.uid := p] == users;
  }

  /** The page's own initials helper: the same pipeline as the header's but
      with no default for an empty name. */
  function LocalInitials(name: string): (r: string)
    ensures |r| <= 2
    ensures name == "" ==> r == ""
    ensures name != "" ==> r == GetInitials(name)
  {
    InitialsOf(name)
  }

  /** The avatar fallback text of a loaded profile, `getInitials(displayName || "User")`. */
  function AvatarFallback(profile: UserProfile): (r: string)
  {
    LocalInitials(Or(Some(profile.displayName), "User"))
  }

  /** Thanks to the "User" placeholder, the profile page's fallback agrees
      with the header's initials for every display name, the empty one included. */
  lemma AvatarFallbackAgreesWithHeader(profile: UserProfile)
    ensures AvatarFallback(profile) == GetInitials(profile.displayName)
    ensures |AvatarFallback(profile)| <= 2
  {
    if profile.displayName == "" {
      InitialsOfUser();
    }
  }

  /** The documents of `m` written by `uid` (the `where('authorId', '==', uid)` query). */
  function AuthoredBy<T>(m: map<Id, T>, authorOf: T -> Uid, uid: Uid): (r: map<Id, T>)
    ensures forall k :: k in r <==> k in m && authorOf(m[k]) == uid
    ensures forall k :: k in r ==> r[k] == m[k]
  {
    map k | k in m && authorOf(m[k]) == uid :: m[k]
  }

  function QuestionAuthor(q: Question): Uid { q.authorId }
  function AnswerAuthor(a: Answer): Uid { a.authorId }

  /** The user's own questions and answers as the page holds them. */
  datatype Content = Content(questions: seq<Question>, answers: seq<Answer>)

  /** `fetchUserContent`: nothing happens without a signed-in user. */
  function FetchUserContent(c: Content, user: Option<AuthUser>, questions: seq<Question>, answers: seq<Answer>): (r: Content)
    ensures user.None? ==> r == c
    ensures user.Some? ==> r == Content(questions, answers)
  {
    if user.None? then c else Content(questions, answers)
  }

  /** The Questions and Answers counters show how many documents of each
      collection the signed-in user wrote. */
  lemma ContentCounts(db: Db, c: Content, user: AuthUser, questions: seq<Question>, answers: seq<Answer>)
    requires IsListing(questions, AuthoredBy(db.questions, QuestionAuthor, user.uid), QuestionId)
    requires IsListing(answers, AuthoredBy(db.answers, AnswerAuthor, user.uid), AnswerId)
    ensures var r := FetchUserContent(c, Some(user), questions, answers);
      && |r.questions| == |AuthoredBy(db.questions, QuestionAuthor, user.uid)|
      && |r.answers| == |AuthoredBy(db.answers, AnswerAuthor, user.uid)|
      && (forall q :: q in r.questions ==> q.authorId == user.uid)
      && (forall a :: a in r.answers ==> a.authorId == user.uid)
  {
    ListingSize(questions, AuthoredBy(db.questions, QuestionAuthor, user.uid), QuestionId);
    ListingSize(answers, AuthoredBy(db.answers, AnswerAuthor, user.uid), AnswerId);
    forall q | q in questions
      ensures q.authorId == user.uid
    {
      var k :| 0 <= k < |questions| && questions[k] == q;
    }
    forall a | a in answers
      ensures a.authorId == user.uid
    {
      var k :| 0 <= k < |answers| && answers[k] == a;
    }
  }
}
