/** The authentication context: the signed-in identity, its profile document
    and a loading flag, driven by sign-up, login, logout and the identity
    service's state-change events. */
module Auth {
  import opened Wrappers
  import opened Text
  import opened Store

  const AvatarPrefix := "https://api.dicebear.com/7.x/avataaars/svg?seed="
  const UserRole := "user"
  const AdminRole := "admin"

  datatype AuthState = AuthState(currentUser: Option<AuthUser>, userProfile: Option<UserProfile>, loading: bool)

  const InitialAuth := AuthState(None, None, true)

  /** `userProfile?.role === 'admin'`. */
  predicate IsAdmin(s: AuthState)
  {
    s.userProfile.Some? && s.userProfile.value.role == AdminRole
  }

  /** The profile document written at sign-up. */
  function CreateUserProfile(user: AuthUser, displayName: string, now: Timestamp): (p: UserProfile)
    ensures p.uid == user.uid
    ensures p.email == Or(user.email, "")
    ensures p.displayName == displayName
    ensures p.role == UserRole && p.bio == ""
    ensures p.achievements == Achievements(0, 0, 0)
    ensures p.createdAt == now
    ensures StartsWith(p.avatar, AvatarPrefix)
  {
    UserProfile(
      uid := user.uid,
      email := Or(user.email, ""),
      displayName := displayName,
      avatar := AvatarPrefix + user.uid,
      role := UserRole,
      bio := "",
      createdAt := now,
      achievements := Achievements(0, 0, 0))
  }

  /** The `seed` an avatar URL was built from. */
  function AvatarSeed(avatar: string): string
    requires StartsWith(avatar, AvatarPrefix)
  {
    avatar[|AvatarPrefix|..]
  }

  /** The avatar URL of a new profile encodes exactly its uid. */
  lemma AvatarSeedIsUid(user: AuthUser, displayName: string, now: Timestamp)
    ensures AvatarSeed(CreateUserProfile(user, displayName, now).avatar) == user.uid
  {
    assert (AvatarPrefix + user.uid)[|AvatarPrefix|..] == user.uid;
  }

  /** Signing up never creates an administrator. */
  lemma NewProfileIsNotAdmin(s: AuthState, user: AuthUser, displayName: string, now: Timestamp)
    ensures !IsAdmin(s.(userProfile := Some(CreateUserProfile(user, displayName, now))))
  {
  }

  /** `signup` after the identity service created `user`: the profile is
      stored under the uid and becomes the context's profile. */
  function Signup(db: Db, s: AuthState, user: AuthUser, displayName: string, now: Timestamp): (r: (Db, AuthState))
    ensures user.uid in r.0.users && r.0.users == db.users[user.uid := r.0.users[user.uid]]
    ensures r.0 == db.(users := r.0.users)
    ensures r.1 == s.(userProfile := Some(r.0.users[user.uid]))
    ensures r.0.users[user.uid] == CreateUserProfile(user, displayName, now)
    ensures r.0.users[user.uid].role == UserRole
  {
    var p := CreateUserProfile(user, displayName, now);
    (db.(users := db.users[user.uid := p]), s.(userProfile := Some(p)))
  }

  /** `getUserProfile(uid)`: the stored profile, or nothing when the document
      is missing or the read fails (`readOk == false`). */
  function GetUserProfile(users: map<Uid, UserProfile>, uid: Uid, readOk: bool): (r: Option<UserProfile>)
    ensures r.Some? <==> readOk && uid in users
    ensures r.Some? ==> r.value == users[uid]
  {
    if readOk && uid in users then Some(users[uid]) else None
  }

  /** `login` after the identity service accepted the credentials of `user`. */
  function Login(s: AuthState, user: AuthUser, users: map<Uid, UserProfile>, readOk: bool): (r: AuthState)
    ensures r.currentUser == s.currentUser && r.loading == s.loading
    ensures r.userProfile.Some? <==> readOk && user.uid in users
    ensures r.userProfile.Some? ==> r.userProfile.value == users[user.uid]
  {
    s.(userProfile := GetUserProfile(users, user.uid, readOk))
  }

  /** `logout`: the profile is cleared at once; the identity itself is
      cleared by the state-change event that follows. */
  function Logout(s: AuthState): (r: AuthState)
    ensures r.userProfile.None? && !IsAdmin(r)
    ensures r.currentUser == s.currentUser && r.loading == s.loading
  {
    s.(userProfile := None)
  }

  /** The `onAuthStateChanged` handler. */
  function OnAuthStateChanged(s: AuthState, user: Option<AuthUser>, users: map<Uid, UserProfile>, readOk: bool): (r: AuthState)
    ensures !r.loading
    ensures user.None? ==> r.currentUser.None? && r.userProfile.None?
    ensures user.Some? ==> r.currentUser == user
    ensures user.Some? ==> (r.userProfile.Some? <==> readOk && user.value.uid in users)
    ensures user.Some? && r.userProfile.Some? ==> r.userProfile.value == users[user.value.uid]
  {
    if user.Some? then AuthState(user, GetUserProfile(users, user.value.uid, readOk), false)
    else AuthState(None, None, false)
  }

  /** Every profile is stored under its own uid. */
  ghost predicate KeyedByUid(users: map<Uid, UserProfile>)
  {
    forall k :: k in users ==> users[k].uid == k
  }

  /** After an event the context's profile, if any, belongs to its identity,
      so only a signed-in user can be an administrator. */
  lemma EventProfileBelongsToUser(s: AuthState, user: Option<AuthUser>, users: map<Uid, UserProfile>, readOk: bool)
    requires KeyedByUid(users)
    ensures var r := OnAuthStateChanged(s, user, users, readOk);
      r.userProfile.Some? ==> r.currentUser.Some? && r.userProfile.value.uid == r.currentUser.value.uid
    ensures IsAdmin(OnAuthStateChanged(s, user, users, readOk)) ==> user.Some?
  {
  }

  /** Logging out and the sign-out event that follows leave nobody signed in
      and no administrator. */
  lemma LogoutSignsOut(s: AuthState, users: map<Uid, UserProfile>, readOk: bool)
    ensures var r := OnAuthStateChanged(Logout(s), None, users, readOk);
      r == AuthState(None, None, false) && !IsAdmin(r)
  {
  }
}
