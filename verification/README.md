# A Dafny model of the Q&A front-end's domain layer

The application is a React question-and-answer site backed by a document
store and an identity service. Almost all of it is view markup. Its event
handlers and helpers, though, hold a small domain layer, and this project
models that layer:

- **Answer engagement** on the question page:
  - opening a question and counting the view;
  - ordering answers by lamp count;
  - posting an answer and bumping the question's `answers` counter;
  - the lamp toggle, with its `userLamps` set and `lampCount`;
  - the favorite toggle.
- **The search page's filter.**
- **The administrator's dashboard:**
  - the collection counts;
  - the recent-activity feed;
  - the delete and role-change actions;
  - the admin gate;
  - the ten-row moderation tabs.
- **The authentication context:** the default profile, profile lookup, logout, state-change events and `isAdmin`.
- **The route guard.**
- **The home page:** the query for each sort option, card defaults and the greeting banner.
- **The header:** avatar initials, the search box and logout.
- **The profile page:** the edit form, its initials and the authored-content counts.
- **The question card:** tag chips, the overflow badge, the answer label, status colours and the age label.

The store is an immutable value, `Store.Db`, with one map per collection
keyed by document id. Each handler is a pure function from the store and
the page's local state to a new store and a new page state. Where a handler
reads a query result, the result is a parameter (a sequence of documents).
`Store.IsListing` relates such a sequence to the collection it was read
from: every document exactly once, in some order.

Several things become parameters:

- a document id the store chooses;
- the current time;
- whether a store call succeeds;
- the library functions `encodeURIComponent` and `formatDistanceToNow`.

The modules follow the source files:

| module | models |
|---|---|
| `Store` | entities, collections, `increment`, query listings |
| `QuestionDetail` | `src/pages/QuestionDetail.jsx` |
| `Search` | `src/pages/Search.jsx` |
| `AdminDashboard` | `src/pages/AdminDashboard.jsx` |
| `Auth` | `src/hooks/useAuth.jsx` |
| `ProtectedRoute` | `src/components/ProtectedRoute.jsx` |
| `Home` | `src/pages/Home.jsx` |
| `Header` | `src/components/Header.jsx` |
| `Profile` | `src/pages/Profile.jsx` |
| `QuestionCard` | `src/components/QuestionCard.jsx` |

Four shared modules support them:

- `Text`: JavaScript `trim`, ASCII case mapping, `includes`, `slice`, `split` and the `x || d` string default, over strings of code points (see "## Left out" for where this differs from JavaScript's UTF-16 code units).
- `Seqs`: `filter` and `map`, with subsequence and permutation facts.
- `Ordering`: `Array.prototype.sort` with a descending numeric comparator, modelled as a stable insertion sort.
- `Wrappers`: `Option`.

JavaScript semantics the model makes explicit:

- `x || d` on a string treats the empty string as missing (`Text.Or`).
- `increment(n)` on a missing field starts from 0 (`Store.Increment`).
- `orderBy(field)` leaves out documents that lack the field (`AdminDashboard.Dated`, `Home.RunQuery`).
- `sort` is stable.

## Model

| member | source | states |
|---|---|---|
| QuestionDetail.SortByLamps | src/pages/QuestionDetail.jsx:65 | the answer list is a permutation of the fetched answers in non-increasing lamp count, a missing count read as 0 |
| QuestionDetail.SortByLampsStable | src/pages/QuestionDetail.jsx:65 | answers with equal lamp counts keep the order the query returned them in |
| QuestionDetail.ViewOf | src/pages/QuestionDetail.jsx:245-270 | the loading view shows exactly while loading; the not-found view exactly when loading is over and no question was found; otherwise the loaded question |
| QuestionDetail.Refresh | src/pages/QuestionDetail.jsx:191-200 | after a lamp click the list is replaced by a permutation of the refetched answers in non-increasing lamp count, and nothing else on the page changes |
| QuestionDetail.LampedBy | src/pages/QuestionDetail.jsx:73-77 | an answer id is in the lamp set exactly when that listed answer has the user among its lamp holders |
| QuestionDetail.FavoritesOf | src/pages/QuestionDetail.jsx:79-84 | an answer id is in the favorite set exactly when some stored favorite of the user names it |
| QuestionDetail.LoadQuestion | src/pages/QuestionDetail.jsx:35-99 | no id does nothing; a missing question changes no document and ends loading; an existing one is shown, its `viewCount` rises by exactly one (from 0 when absent), no other document changes, and the answers are a permutation of the fetched ones in non-increasing lamp count |
| QuestionDetail.LoadMissingIsNotFound | src/pages/QuestionDetail.jsx:256-270 | opening a missing question from a fresh page yields the not-found view and leaves the store unchanged |
| QuestionDetail.LoadEstablishesAgreement | src/pages/QuestionDetail.jsx:69-87 | after loading, the page's lamp set agrees with the store's lamp holders for each of the question's answers, and its favorite set equals the user's stored favorites |
| QuestionDetail.NewAnswer | src/pages/QuestionDetail.jsx:118-129 | a posted answer belongs to the current question and user, has trimmed content and code, lamp count 0, no lamp holders and no comments, and is signed with the profile's non-empty display name, else the account email |
| QuestionDetail.PostAnswer | src/pages/QuestionDetail.jsx:101-156 | no user writes nothing; content that trims to empty writes nothing and sets the error; otherwise exactly the new answer is added and the question's counter rises by one, or, if the question is gone, the answer stays and the failure error is shown |
| QuestionDetail.AddAnswerCount | src/pages/QuestionDetail.jsx:118-129 | adding an answer adds one to its question's answer count and nothing to any other question's |
| QuestionDetail.PostKeepsCounters | src/pages/QuestionDetail.jsx:118-135 | a question whose `answers` counter equals its number of answers still has that property after any post |
| QuestionDetail.ToggleLamp | src/pages/QuestionDetail.jsx:158-204 | no user or a missing answer changes nothing; otherwise the page's lamp set picks the branch: removal takes the uid out and lowers the count by one, addition puts it in and raises the count by one; other uids, other answers and other page fields are untouched |
| QuestionDetail.ToggleLampKeepsCount | src/pages/QuestionDetail.jsx:169-189 | when the page's lamp set agrees with the store, a toggle keeps every answer's `lampCount` equal to its number of lamp holders, and keeps the page in agreement |
| QuestionDetail.LampedConsistent | src/pages/QuestionDetail.jsx:171-186 | giving a lamp one does not hold, or withdrawing one held, keeps count and holders equal |
| QuestionDetail.ToggleLampTwice | src/pages/QuestionDetail.jsx:169-189 | two toggles by the same user restore the stored answer and the page exactly |
| QuestionDetail.StaleLampSetBreaksCount | src/pages/QuestionDetail.jsx:169-176 | without agreement the invariant fails: a page believing it holds a lamp drives a consistent count of 0 to -1 |
| QuestionDetail.RemoveFavorites | src/pages/QuestionDetail.jsx:216-224 | a favorite survives exactly when it is not of the given (user, answer) pair, and survivors are unchanged |
| QuestionDetail.ToggleFavorite | src/pages/QuestionDetail.jsx:206-243 | no user changes nothing; removal deletes every favorite of the pair and no other; addition inserts exactly one favorite; only that answer id flips in the page's set |
| QuestionDetail.FavoritesOfAdd | src/pages/QuestionDetail.jsx:233-238 | adding a favorite adds its answer id to its own user's saved set only |
| QuestionDetail.ToggleFavoriteKeepsAgreement | src/pages/QuestionDetail.jsx:206-243 | with the page agreeing with the store, a toggle keeps at most one favorite per pair and keeps the page's set equal to the stored favorites |
| QuestionDetail.ToggleFavoriteTwice | src/pages/QuestionDetail.jsx:213-239 | two toggles restore the page and the user's saved answers |
| QuestionDetail.ToggleFavoriteAsWritten | src/pages/QuestionDetail.jsx:222-229 | as written, removal leaves the store unchanged while the page only drops the id and asks for no refetch; the other branches are those of the corrected toggle |
| QuestionDetail.AsWrittenFavoriteDuplicates | src/pages/QuestionDetail.jsx:213-238 | as written, un-saving and re-saving an answer leaves two favorites for one pair |
| Search.SearchQuestions | src/pages/Search.jsx:17-38 | a blank query gives nothing; every result matches the lower-cased query in title, description or a tag; every fetched question that matches is a result; results keep the fetched order |
| Search.QueryOf | src/pages/Search.jsx:11 | the query is the `q` parameter, or "" when it is absent; the empty-string default changes nothing else |
| Search.MatchesIffMentions | src/pages/Search.jsx:33-38 | the filter's predicate holds exactly when the lower-cased query occurs at some position of the lower-cased title, description or a tag, an absent field contributing nothing |
| Search.SearchIff | src/pages/Search.jsx:17-38 | a fetched question is a result exactly when the query is not blank and the question mentions it |
| Search.SearchIgnoresCase | src/pages/Search.jsx:32 | a query and its lower-cased form give the same results |
| Search.QueryFound | src/pages/Search.jsx:32-35 | the query "b" finds a question titled "b" |
| Search.QueryNotTrimmed | src/pages/Search.jsx:17-35 | a non-blank query is matched untrimmed: "b " does not find a question titled "b" |
| Text.Trim | src/pages/Search.jsx:17 | the result sits inside the input with only whitespace around it, and neither starts nor ends with whitespace |
| Text.BlankIffAllWhitespace | src/pages/Search.jsx:17 | a string trims to empty exactly when all of it is whitespace |
| Text.TrimIdempotent | src/pages/Profile.jsx:74-81 | trimming twice is trimming once |
| Text.IncludesIff | src/pages/Search.jsx:34-37 | `includes` holds exactly when the needle occurs at some position |
| Text.HeadsOfSplit | src/components/Header.jsx:35-38 | splitting on spaces and joining first characters yields exactly the characters that start a word |
| Text.InitialsOf | src/components/Header.jsx:35-40 | the initials are at most two characters: the upper-cased word starts, cut to two, counted in code points |
| AdminDashboard.QuestionEntry | src/pages/AdminDashboard.jsx:91-98 | a question's feed entry carries its id and timestamp, with "Untitled" for a missing or empty title and "Anonymous" for a missing author |
| AdminDashboard.AnswerEntry | src/pages/AdminDashboard.jsx:100-107 | an answer's feed entry carries its id and timestamp, with "Anonymous" for a missing author |
| AdminDashboard.AnswerEntryTitle | src/pages/AdminDashboard.jsx:104 | an answer's feed title is the first min(50, n) code points of its content (of "" when absent) followed by "..." |
| AdminDashboard.RecentActivity | src/pages/AdminDashboard.jsx:90-116 | the feed is ordered by non-increasing timestamp seconds, a missing timestamp read as 0, and is a permutation of the entries of the first five questions and first five answers |
| AdminDashboard.RecentActivityKinds | src/pages/AdminDashboard.jsx:91-108 | the question entries of the feed are, up to order, exactly those of the first five questions, and likewise for answers |
| AdminDashboard.RecentActivityCounts | src/pages/AdminDashboard.jsx:91-108 | the feed holds min(5, n) entries of each kind and nothing else |
| AdminDashboard.RecentActivitySources | src/pages/AdminDashboard.jsx:91-108 | every entry is built from one of the first five documents of its list |
| AdminDashboard.Members | src/pages/AdminDashboard.jsx:50-54 | the user rows are the profiles keyed by their document ids |
| AdminDashboard.FetchData | src/pages/AdminDashboard.jsx:44-122 | a fetch stores the lists read, counts them, builds the feed from them and ends loading |
| AdminDashboard.Dated | src/pages/AdminDashboard.jsx:58-70 | a query ordered by `createdAt` holds exactly the documents that have that field; the fetch reads those documents newest first, and the feed and tab lemmas rely on that order |
| AdminDashboard.FetchedStats | src/pages/AdminDashboard.jsx:82-87 | the counters are the sizes of the users and messages collections and of the dated questions and answers, hence of all questions and answers when every one is dated |
| AdminDashboard.MembersCount | src/pages/AdminDashboard.jsx:83 | the user counter is the number of stored profiles |
| AdminDashboard.DatedCount | src/pages/AdminDashboard.jsx:84-85 | a listing of the dated documents counts them, and counts the whole collection when every document is dated |
| AdminDashboard.HeadOutranks | src/pages/AdminDashboard.jsx:91 | in a list ordered newest first, each of the first n elements is at least as recent as any element after them |
| AdminDashboard.ListedHeadOutranks | src/pages/AdminDashboard.jsx:58-65 | for a listing of a collection ordered newest first, the head is at least as recent as every document of the collection outside it |
| AdminDashboard.EntryOutranks | src/pages/AdminDashboard.jsx:91-106 | a feed entry built from one of the first five documents of an ordered listing is at least as recent as every listed document outside those five |
| AdminDashboard.FeedHoldsNewestQuestions | src/pages/AdminDashboard.jsx:57-98 | with the questions read newest first, every question entry of the feed is at least as recent as every dated question left out of it |
| AdminDashboard.FeedHoldsNewestAnswers | src/pages/AdminDashboard.jsx:67-107 | with the answers read newest first, every answer entry of the feed is at least as recent as every dated answer left out of it |
| AdminDashboard.OnAdminChange | src/pages/AdminDashboard.jsx:124-148 | a non-administrator causes no fetch and no listener; an administrator causes the fetch and listens to questions, answers and users |
| AdminDashboard.View | src/pages/AdminDashboard.jsx:192-213 | a non-administrator gets access denied, an administrator gets the loading view while loading, and the dashboard only once loading is over |
| AdminDashboard.NonAdminSeesNothing | src/pages/AdminDashboard.jsx:192-203 | a non-administrator gets the access-denied view, and what the store holds makes no difference |
| AdminDashboard.AdminSeesDashboard | src/pages/AdminDashboard.jsx:124-126 | an administrator sees the dashboard once the fetch completes |
| AdminDashboard.DeleteQuestion | src/pages/AdminDashboard.jsx:150-158 | a failed delete changes nothing; a successful one removes the document, drops exactly the rows with that id, keeps the others in order and closes the confirmation |
| AdminDashboard.DeleteAnswer | src/pages/AdminDashboard.jsx:160-168 | the same for answers |
| AdminDashboard.DeleteUser | src/pages/AdminDashboard.jsx:170-179 | the same for users, also closing the user dialog |
| AdminDashboard.ConfirmDelete | src/pages/AdminDashboard.jsx:556-561 | without a pending delete nothing happens; a pending question, answer or user delete runs exactly the matching handler on the pending id |
| AdminDashboard.DeleteQuestionKeepsListing | src/pages/AdminDashboard.jsx:150-158 | a questions list that exactly lists a collection lists it without the deleted document afterwards; the fetched list of dated questions still lists the store's dated questions |
| AdminDashboard.DeleteAnswerKeepsListing | src/pages/AdminDashboard.jsx:160-168 | the same for answers |
| AdminDashboard.DeleteUserKeepsListing | src/pages/AdminDashboard.jsx:170-179 | a users list that lists every profile still does after a user delete |
| AdminDashboard.DatedRemove | src/pages/AdminDashboard.jsx:152-153 | deleting a document and then keeping the dated ones is the same as keeping the dated ones and then deleting |
| AdminDashboard.ChangeUserRole | src/pages/AdminDashboard.jsx:181-190 | when the store accepts the update, only the matching user's role changes, in the store and in the list, with the list's order and length kept; otherwise nothing changes |
| AdminDashboard.ChangeRoleKeepsListing | src/pages/AdminDashboard.jsx:183-186 | a users list that exactly lists the store still does after a role change |
| AdminDashboard.MembersWithRole | src/pages/AdminDashboard.jsx:184-186 | updating a stored profile's role and mapping the same update over its row agree |
| AdminDashboard.QuestionsTab | src/pages/AdminDashboard.jsx:395 | the questions tab shows the first min(10, n) questions, in order |
| AdminDashboard.AnswersTab | src/pages/AdminDashboard.jsx:426 | the answers tab shows the first min(10, n) answers, in order |
| AdminDashboard.TabsHoldNewest | src/pages/AdminDashboard.jsx:395-426 | after a fetch each tab holds the newest rows: a dated document missing from its tab is no newer than any row shown |
| Store.Increment | src/pages/QuestionDetail.jsx:51-53 | an increment writes the old value, read as 0 when absent, plus the delta |
| Store.AnswersOf | src/pages/QuestionDetail.jsx:57 | the answers of a question are exactly the stored answers naming it |
| Store.ListingSize | src/pages/AdminDashboard.jsx:82-87 | a listing has exactly as many entries as the collection it lists |
| Store.UpdateWhere | src/pages/AdminDashboard.jsx:184-186 | mapping an update by id changes exactly the entries with that id and keeps the length |
| Store.KeepListing | src/pages/AdminDashboard.jsx:153 | filtering an id out of an exact listing lists the collection without that document |
| Store.UpdateListing | src/pages/AdminDashboard.jsx:183-186 | mapping an id-preserving update over an exact listing lists the updated collection |
| Auth.CreateUserProfile | src/hooks/useAuth.jsx:22-40 | a new profile has the identity's uid, its email or "", the given name, role "user", an empty bio, zeroed achievements and an avatar URL under the fixed prefix |
| Auth.AvatarSeedIsUid | src/hooks/useAuth.jsx:28 | the new avatar URL's seed is exactly the uid |
| Auth.NewProfileIsNotAdmin | src/hooks/useAuth.jsx:29 | signing up never yields an administrator |
| Auth.IsAdmin | src/hooks/useAuth.jsx:101 | administrator status is a present profile whose role is "admin" (a definition; its consequences are stated by NewProfileIsNotAdmin, Logout and EventProfileBelongsToUser) |
| Auth.Signup | src/hooks/useAuth.jsx:55-59 | sign-up stores exactly the profile `createUserProfile` builds under the uid, with role "user", changes no other document and makes it the context's profile |
| Auth.GetUserProfile | src/hooks/useAuth.jsx:43-52 | the lookup yields the stored profile exactly when the read succeeds and the document exists |
| Auth.Login | src/hooks/useAuth.jsx:62-66 | login sets only the profile, present exactly when the lookup succeeds |
| Auth.Logout | src/hooks/useAuth.jsx:69-72 | logout clears the profile at once, so nobody is an administrator, and leaves the identity to the event that follows |
| Auth.OnAuthStateChanged | src/hooks/useAuth.jsx:75-92 | after every event loading is over; an event without a user clears identity and profile; an event with a user sets the identity and the profile the lookup yields |
| Auth.EventProfileBelongsToUser | src/hooks/useAuth.jsx:78-85 | after an event the profile, if any, belongs to the signed-in identity, so only a signed-in user can be an administrator |
| Auth.LogoutSignsOut | src/hooks/useAuth.jsx:69-88 | logout followed by its sign-out event leaves nobody signed in, no profile and no administrator |
| ProtectedRoute.Guard | src/components/ProtectedRoute.jsx:8-18 | while loading the loading view whatever the user; then a redirect to "/login" without a user and the children with one |
| ProtectedRoute.RenderNeedsUser | src/components/ProtectedRoute.jsx:8-18 | the children are never rendered while loading or without a signed-in user |
| ProtectedRoute.GuardAfterEvent | src/components/ProtectedRoute.jsx:14-18 | before any event the guard shows the loading view; after an event it renders exactly when the event carried a user |
| Home.SelectQuery | src/pages/Home.jsx:23-29 | every query is descending and limited to 20; it orders by `createdAt` exactly for "newest", by `viewCount` exactly for "views", and by `answers` for every other option |
| Home.InitialQueryIsNewest | src/pages/Home.jsx:14 | the page opens on the newest questions |
| Home.HasField | src/pages/Home.jsx:24-28 | a definition: the field-presence test that `orderBy` applies, which `RunQuery` states its selection against |
| Home.RunQuery | src/pages/Home.jsx:24-28 | the result holds at most the limit, is ordered by the field, and is drawn from the stored questions that have the field, each stored copy returned at most once |
| Home.RunQueryIsTop | src/pages/Home.jsx:24-28 | a question with the field that was left out ranks no higher than any question shown, and the page is full |
| Home.CardOf | src/pages/Home.jsx:114-125 | card props take the question's fields, with [] for missing tags, 0 for missing counts and "open" for a missing status |
| Home.BareQuestionCard | src/pages/Home.jsx:120-124 | a question with no tags, counter or status renders with no chips or badge, "0 answers" and the open colour |
| Home.BannerFor | src/pages/Home.jsx:54-71 | the button leads to "/ask" exactly with a user and to "/signup" exactly without one, and a visitor is greeted with "Welcome!" |
| Home.NameOrEmail | src/pages/Home.jsx:54 | the greeting uses a non-empty display name, else the email, else the text "null" an absent email renders as |
| Home.HomeBannerAsWritten | src/pages/Home.jsx:11 | as written, the banner is the visitor's banner whatever the context holds |
| Home.AsWrittenBannerIgnoresSignIn | src/pages/Home.jsx:11 | as written, a signed-in user is sent to sign up, unlike the banner for that user |
| Home.HomeBanner | src/pages/Home.jsx:54-71 | reading `currentUser`, the banner offers to ask exactly when someone is signed in |
| Home.BannerFollowsAuth | src/pages/Home.jsx:58-70 | after any state-change event the corrected banner offers to ask exactly when the event carried a user |
| Header.GetInitials | src/components/Header.jsx:33-41 | an empty name gives "U"; otherwise at most two characters, the upper-cased first characters of the space-separated words, empty words contributing nothing, counted in code points |
| Header.AvatarOf | src/components/Header.jsx:81-85 | a profile with a picture shows it; otherwise the initials of a non-empty display name, else of a non-empty email, else "U" |
| Header.AvatarFallbacks | src/components/Header.jsx:81-85 | without a profile or an email the initials are "U"; a profile written at sign-up always shows a picture |
| Header.InitialsOfUser | src/components/Header.jsx:84 | the initials of the placeholder "User" are "U" |
| Header.HandleSearch | src/components/Header.jsx:15-22 | a query that trims to empty does nothing; otherwise the untrimmed query is encoded after "/search?q=", the box is emptied and the menu closed |
| Header.SearchSubmitsOnce | src/components/Header.jsx:17-20 | submitting the emptied box again navigates nowhere |
| Header.SearchReachesSearchPage | src/components/Header.jsx:18 | with a decoder inverting the encoder, the search page reads back exactly the typed query and lists exactly the questions that match it |
| Header.HandleLogout | src/components/Header.jsx:24-31 | after logout and its event nobody is signed in, nobody is an administrator and the route is "/" |
| Profile.LoadForm | src/pages/Profile.jsx:38-43 | a loaded profile's name and bio fill the form; without one the form is kept |
| Profile.HandleUpdateProfile | src/pages/Profile.jsx:73-88 | no user or a blank name does nothing; otherwise loading is reset; a successful write stores only the trimmed name and bio and ends editing; a failed one changes no profile and keeps editing |
| Profile.SavedNameIsClean | src/pages/Profile.jsx:79-82 | a saved name is trimmed and not blank, and a saved bio is trimmed |
| Profile.UneditedSaveChangesNothing | src/pages/Profile.jsx:79-82 | saving a clean profile without editing it leaves the store as it was |
| Profile.LocalInitials | src/pages/Profile.jsx:95-101 | the page's initials are at most two characters, the header's for a non-empty name, and have no "U" default, counted in code points |
| Profile.AvatarFallbackAgreesWithHeader | src/pages/Profile.jsx:113 | with the "User" placeholder the fallback equals the header's initials for every name |
| Profile.AuthoredBy | src/pages/Profile.jsx:50-64 | a document is selected exactly when its author is the user |
| Profile.FetchUserContent | src/pages/Profile.jsx:46-70 | without a user nothing is fetched; with one both lists are replaced |
| Profile.ContentCounts | src/pages/Profile.jsx:195-196 | the counters are the numbers of questions and answers the user wrote, and every listed document is theirs |
| QuestionCard.VisibleTags | src/components/QuestionCard.jsx:40 | the chips are the first min(3, n) tags, in order |
| QuestionCard.Overflow | src/components/QuestionCard.jsx:45-49 | the "+k" badge appears exactly when there are more than three tags |
| QuestionCard.TagsAccountedFor | src/components/QuestionCard.jsx:40-49 | chips plus badge count equals the number of tags, and the badge counts exactly the tags after the chips |
| QuestionCard.AnswerLabel | src/components/QuestionCard.jsx:56 | the label is "answer" exactly for a count of one and "answers" otherwise |
| QuestionCard.StatusColor | src/components/QuestionCard.jsx:19-23 | a colour exists exactly for "open", "resolved" and "closed" |
| QuestionCard.StatusColorsDistinct | src/components/QuestionCard.jsx:19-23 | the three known statuses have pairwise different colours |
| QuestionCard.TimeLabel | src/components/QuestionCard.jsx:17 | a missing timestamp shows "Recently"; a present one shows the relative time |

## Left out

- The store and identity service themselves. They are an in-memory value. Some store failures are an `ok` or `readOk` parameter: deletes, the role change, the profile save and the profile read. Every other store or identity-service failure is left out; the failure paths below name what the source does in each case.
- Concurrency:
  - the lamp toggle's read-modify-write race;
  - the two-step post (add, then increment);
  - the fire-and-forget callbacks.
  
  Each handler is one atomic step. `ToggleLampKeepsCount` states the precondition that makes that step safe: the page's lamp set agrees with the store.
- Real-time listeners. The dashboard's refetch on every change is not modelled (src/pages/AdminDashboard.jsx:128-147). `OnAdminChange` records only which collections are listened to. Stats and the feed after a delete are therefore those of the last fetch.
- The answer re-queries after a post or lamp click. Each handler returns a `refetch` flag, and `Refresh` models applying the result.
- Timing and rendering state:
  - the page's `submitting` flag during the post;
  - the `loading` flag during a load. An empty id leaves it as it was, which the model keeps.
- `formatDistanceToNow` and `encodeURIComponent` are function parameters.
- Unicode. `toLowerCase` and `toUpperCase` map ASCII letters only. `trim` strips the ECMAScript whitespace and line-terminator code points. A model string is a sequence of Unicode code points, while a JavaScript string is a sequence of UTF-16 code units; the four members below count in code points.
- Text.InitialsOf: each word's first character and the cut to two characters count code points, where `n[0]` and `slice(0, 2)` (src/components/Header.jsx:37-40) count UTF-16 code units. For a word starting outside the Basic Multilingual Plane the source takes a lone high surrogate and the model the whole character.
- Header.GetInitials: inherits the code-point counting of `Text.InitialsOf`, so it differs from src/components/Header.jsx:33-41 for names with characters outside the Basic Multilingual Plane.
- Profile.LocalInitials: inherits the code-point counting of `Text.InitialsOf`, so it differs from src/pages/Profile.jsx:95-101 for names with characters outside the Basic Multilingual Plane.
- AdminDashboard.AnswerEntryTitle: the 50-character cut counts code points, where `substring(0, 50)` (src/pages/AdminDashboard.jsx:104) counts UTF-16 code units. Content with characters outside the Basic Multilingual Plane keeps more characters in the model than in the source.
- Failure paths:
  - the load catch's "Failed to load question" error;
  - the `alert` calls;
  - console logging;
  - a failed lamp or favorite write. The catch leaves the page as it was;
  - a failed search read. The page keeps the previous query's results and shows them under the new query (src/pages/Search.jsx:41-45);
  - a failed home-page read. The old list stays (src/pages/Home.jsx:37-41);
  - a failed read in the profile page's content fetch. It has no catch, so a failed answers read leaves the questions list updated and the answers list stale (src/pages/Profile.jsx:50-66);
  - a failed `signOut` in the header. The header does not navigate (src/components/Header.jsx:24-31);
  - a failed profile write during sign-up. The identity exists with no stored profile and no context profile (src/hooks/useAuth.jsx:38, 57);
  - a failed `signOut` in `logout`. The profile is cleared first, so the user stays signed in without a profile (src/hooks/useAuth.jsx:69-72).
- QuestionDetail.PostAnswer: a failed `addDoc` is not modelled. In the source it writes nothing and shows "Failed to post answer" (src/pages/QuestionDetail.jsx:150-155). Only the failed counter update after a vanished question is modelled.
- AdminDashboard.FetchData: only the fetch in which every read succeeds is modelled. A failed read ends loading with the lists read so far (src/pages/AdminDashboard.jsx:117-121).
- Sign-up and login run after a successful identity-service call. That call is not modelled, and neither are the Signup/Login/SetupAdmin pages or the make-admin script, which wrap one call each.
- Routing, styling, and the static components other than the question card.
- QuestionDetail.LoadQuestion: the lamp and favorite sets are not reset when the user signs out. The model keeps them, as the source does.
- Home.RunQuery: it does not say which questions among equal keys the store returns at the cut. The store's tie-break order is not modelled.
- Profile.HandleUpdateProfile: the context's profile is not refreshed after a save, so the page keeps showing the old one until the next state-change event. The model leaves the context out of this step.
- AdminDashboard.ChangeUserRole: the user dialog's `selectedUser` still holds the old role after a change. The dialog is not modelled.

## Findings

| source | as written | input that shows it | evidently intended | confidence | as-written member | corrected member |
|---|---|---|---|---|---|---|
| src/pages/QuestionDetail.jsx:222-224 | un-saving calls `doc.ref.delete()`, which the modular store API's document references do not have; the error is raised in an unawaited callback, so no favorite is deleted while the page drops the heart | a user with one saved answer un-saves and re-saves it | delete every favorite of the pair (`deleteDoc(doc.ref)`) | medium (not executed) | QuestionDetail.ToggleFavoriteAsWritten, QuestionDetail.AsWrittenFavoriteDuplicates | QuestionDetail.ToggleFavorite, QuestionDetail.ToggleFavoriteKeepsAgreement |
| src/pages/Home.jsx:11 | the page reads `user` from the auth context, which provides `currentUser`, so `user` is always undefined | any signed-in user opening the home page is greeted "Welcome!" and offered "/signup" | read `currentUser`, as the header does (src/components/Header.jsx:10) | high (not executed) | Home.HomeBannerAsWritten, Home.AsWrittenBannerIgnoresSignIn | Home.HomeBanner, Home.BannerFollowsAuth |
