/** The navigation bar: the avatar initials, the search box and logout. */
module Header {
  import opened Wrappers
  import opened Text
  import opened Store
  import opened Auth
  import opened Search

  /** The bar's avatar initials; an empty name gives "U". */
  function GetInitials(name: string): (r: string)
    ensures name == "" ==> r == "U"
    ensures |r| <= 2
    ensures name != "" ==> r == Take(ToUpper(WordStarts(name, ' ', true)), 2)
  {
    if name == "" then "U" else InitialsOf(name)
  }

  /** What the avatar circle shows when there is a signed-in user: the
      profile picture, or else the initials of
      `userProfile?.displayName || currentUser?.email || 'User'`. */
  datatype AvatarView = Picture(url: string) | Initials(text: string)

  function AvatarOf(ctx: AuthState): (v: AvatarView)
    ensures ctx.userProfile.Some? && ctx.userProfile.value.avatar != "" ==> v == Picture(ctx.userProfile.value.avatar)
    ensures !(ctx.userProfile.Some? && ctx.userProfile.value.avatar != "")
      && ctx.userProfile.Some? && ctx.userProfile.value.displayName != ""
      ==> v == Initials(GetInitials(ctx.userProfile.value.displayName))
    ensures !(ctx.userProfile.Some? && ctx.userProfile.value.avatar != "")
      && (ctx.userProfile.None? || ctx.userProfile.value.displayName == "")
      && ctx.currentUser.Some? && ctx.currentUser.value.email.Some? && ctx.currentUser.value.email.value != ""
      ==> v == Initials(GetInitials(ctx.currentUser.value.email.value))
    ensures !(ctx.userProfile.Some? && ctx.userProfile.value.avatar != "")
      && (ctx.userProfile.None? || ctx.userProfile.value.displayName == "")
      && (ctx.currentUser.None? || ctx.currentUser.value.email.None? || ctx.currentUser.value.email.value == "")
      ==> v == Initials("U")
  {
    if ctx.userProfile.Some? && ctx.userProfile.value.avatar != "" then Picture(ctx.userProfile.value.avatar)
    else
      InitialsOfUser();
      var name := if ctx.userProfile.Some? then ctx.userProfile.value.displayName else "";
      var email := if ctx.currentUser.Some? then ctx.currentUser.value.email else None;
      Initials(GetInitials(Or(Some(name), Or(email, "User"))))
  }

  /** Without a profile or an email the avatar falls back to "U"; a profile
      written at sign-up always has a picture. */
  lemma AvatarFallbacks(ctx: AuthState, user: AuthUser, displayName: string, now: Timestamp)
    ensures ctx.userProfile.None? && (ctx.currentUser.None? || ctx.currentUser.value.email.None?) ==>
      AvatarOf(ctx) == Initials("U")
    ensures AvatarOf(ctx.(userProfile := Some(CreateUserProfile(user, displayName, now)))).Picture?
  {
    if ctx.userProfile.None? && (ctx.currentUser.None? || ctx.currentUser.value.email.None?) {
      InitialsOfUser();
    }
  }

  /** The initials of the "User" placeholder. */
  lemma InitialsOfUser()
    ensures InitialsOf("User") == "U"
  {
    var s := "User";
    assert s[1..] == "ser";
    NoWordStartsWithoutSeparator("ser", ' ');
    assert WordStarts(s, ' ', true) == "U";
    assert ToUpper("U")[0] == UpperChar('U') == 'U';
  }

  /** Past the first character, a string without separators starts no word. */
  lemma {:induction false} NoWordStartsWithoutSeparator(s: string, sep: char)
    requires forall k :: 0 <= k < |s| ==> s[k] != sep
    ensures WordStarts(s, sep, false) == ""
  {
    if |s| > 0 {
      NoWordStartsWithoutSeparator(s[1..], sep);
    }
  }

  /** The search box's state and whether the mobile menu is open. */
  datatype SearchBox = SearchBox(query: string, mobileMenuOpen: bool)

  const SearchPath := "/search?q="

  /** `handleSearch`; `encode` stands for `encodeURIComponent`. The result is
      the new box and the route navigated to, if any. */
  function HandleSearch(box: SearchBox, encode: string -> string): (r: (SearchBox, Option<string>))
    ensures IsBlank(box.query) ==> r == (box, None)
    ensures !IsBlank(box.query) ==> r.0 == SearchBox("", false) && r.1 == Some(SearchPath + encode(box.query))
  {
    if IsBlank(box.query) then (box, None)
    else (SearchBox("", false), Some(SearchPath + encode(box.query)))
  }

  /** Submitting the emptied box again navigates nowhere. */
  lemma SearchSubmitsOnce(box: SearchBox, encode: string -> string)
    ensures var r := HandleSearch(box, encode);
      HandleSearch(r.0, encode) == (r.0, None)
  {
    assert Trim("") == "";
  }

  /** With a decoder that inverts the encoder, the search page reads back
      exactly the untrimmed query typed into the box, so it lists exactly
      the questions the query matches. */
  lemma SearchReachesSearchPage(box: SearchBox, encode: string -> string, decode: string -> string, all: seq<Question>)
    requires forall x :: decode(encode(x)) == x
    requires !IsBlank(box.query)
    ensures var target := HandleSearch(box, encode).1;
      && target.Some? && StartsWith(target.value, SearchPath)
      && QueryOf(Some(decode(target.value[|SearchPath|..]))) == box.query
      && SearchQuestions(all, QueryOf(Some(decode(target.value[|SearchPath|..])))) == SearchQuestions(all, box.query)
  {
    var target := SearchPath + encode(box.query);
    assert target[|SearchPath|..] == encode(box.query);
    assert box.query != "" by {
      assert Trim("") == "";
    }
  }

  /** The header's logout: sign out, after which the identity service's
      event clears the context, and go to the home page. */
  function HandleLogout(s: AuthState): (r: (AuthState, string))
    ensures r.0.currentUser.None? && r.0.userProfile.None? && !r.0.loading
    ensures !IsAdmin(r.0)
    ensures r.1 == "/"
  {
    (OnAuthStateChanged(s, None, map[], true), "/")
  }
}
