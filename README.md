# ConnectLive core in Dafny

ConnectLive is a social network with chat and video calls. Its parts are an Express and
MongoDB backend and a React frontend. This project models the part of the system whose
behaviour can be stated precisely:

- **The friend-request state machine and likes** (`UserController`, over the `Db.Store`
  class).
  - Requests are sent, accepted and declined under ordered guards.
  - Accepting one inserts each user into the other's friend list.
  - Posts and comments are liked at most once per user.
  - Every handler keeps the store's global invariants and leaves untouched what it does
    not name. The invariants are unique emails, symmetric and duplicate-free friend
    lists, at most one request per pair of users, accepted requests joining friends, and
    duplicate-free likes.
- **Accounts** (`AuthController`, `UserModel`).
  - Signup validation: field presence; password length in UTF-16 code units; the email
    regular expression, proved equivalent to a direct matcher.
  - Duplicate emails are refused. The avatar seed is always empty.
  - The user record's schema defaults, and re-hashing the password only when it was
    modified.
  - Login answers an unknown email and a wrong password alike, with the same 401. Logout clears the cookie
    that login set.
  - Onboarding reports which fields are missing.
- **Feeds and deletion** (`PostController`).
  - The friend feed, the explore feed and the profile posts are filters over the post
    collection, sorted newest first. The sort is proved to be a permutation.
  - Deleting posts and comments is authorized removal.
- **Frontend decisions**:
  - the route gate of the app (`AppRouting`), proved free of redirect loops;
  - the six-slot verification-code input (`EmailVerificationPage.CodeInput`, a class over
    an array);
  - the relationship buttons of the profile and friends pages;
  - the infinite-scroll flattening of the home page;
  - the chat channel id and call links (`ChatPage`). The channel id is symmetric and
    built on JavaScript's code-unit string order (`JsString`).
- **The three transactional mails** (`Emails`). They use `String.prototype.replace`
  with a string pattern, which means first occurrence only and the `$` patterns of
  GetSubstitution (section 22.1.3.19.1 of ECMAScript 2023).

Modelling conventions:

- Backend ids are natural numbers drawn from one counter, `Store.nextId`, which stands
  for ObjectId creation. Frontend ids are strings.
- A missing or falsy string field of a request body is the empty string.
- bcrypt is a transparent stand-in, `Hash(p, salt)`. It keeps what bcrypt's comparison
  depends on: the key its key schedule reads, which is the password's UTF-8 bytes and a
  zero byte, repeated to fill 72 bytes. Its compare re-hashes with the salt stored in
  the digest. So `compare(p, hash(p, s))` is a lemma, not an assumption, and so is the
  acceptance of any candidate that shares the first 72 UTF-8 bytes of a long password.
- A JWT is the record `Token(userId, expiresIn)`.
- `Math.random`, the clock, the `NODE_ENV === 'production'` test and the mail templates
  are parameters.
- An exception that the handler's `catch` turns into a 500 is modelled as status 500
  with nothing changed.

Where the code and the system's design description disagree, the model follows the code:

- login checks neither `isVerified` nor `isOnboarded`;
- login does not update `lastLogin`;
- `deleteComment` does not check that the comment belongs to the post named in the path.

## Model

| member | source | states |
|---|---|---|
| Db.AddToSet | backend/src/controllers/user.controller.js:105-111 | `$addToSet`: the result holds exactly the old elements and `x`; it is unchanged if `x` was present and adds `x` at the end otherwise; it keeps a list duplicate-free |
| Db.AddToSetIdempotent | backend/src/controllers/user.controller.js:105-111 | adding the same element twice is adding it once |
| Db.CountInDistinct | backend/src/models/User.js:43-46 | in a duplicate-free list an element occurs once if present and zero times otherwise |
| Db.SetStatusKeepsOnePerPair | backend/src/controllers/user.controller.js:102-103 | changing a request's status keeps at most one request per pair of users |
| Db.OnlyRequestBetween | backend/src/controllers/user.controller.js:59-64 | under the one-per-pair rule a request between two users is the only one between them |
| Db.Store.constructor | backend/src/models/User.js:4-72 | an empty database satisfies every invariant |
| Db.Store.FindUserByEmail | backend/src/controllers/auth.controller.js:24 | `User.findOne({ email })`: a found user has that email; none means no user has it |
| Db.Store.FindRequestBetween | backend/src/controllers/user.controller.js:59-64 | the `$or` lookup in both directions finds the one request between the pair, or establishes there is none |
| Db.Store.FreshId | backend/src/controllers/user.controller.js:80-83 | a new document id is unused in every collection; the invariants are kept |
| UserModel.Key | backend/src/models/User.js:82 | the key bcrypt reads from a password is always 72 bytes long |
| UserModel.LongPasswordTruncated | backend/src/models/User.js:82 | appending anything to a password of 72 or more UTF-8 bytes leaves its key unchanged |
| UserModel.KeyText | backend/src/models/User.js:82 | the key written as one character per byte, with each character's value that byte |
| UserModel.Hash | backend/src/models/User.js:81-82 | a digest has the bcrypt prefix and a length that does not depend on the password, and embeds the salt right after the prefix |
| UserModel.CompareHash | backend/src/models/User.js:89-92 | comparing against `hash(p, salt)` succeeds exactly for candidates whose 72-byte key is that of `p`, so for `p` itself |
| UserModel.CompareIgnoresTail | backend/src/models/User.js:89-92 | a digest of a password of 72 or more UTF-8 bytes also accepts that password followed by anything |
| UserModel.NewDocument | backend/src/models/User.js:4-72 | `new User(...)` holds the given name, email, password, avatar and time, and every schema default |
| UserModel.HasSchemaDefaults | backend/src/models/User.js:19-70 | empty bio and location, not onboarded, not verified, empty id lists and no tokens |
| UserModel.SchemaValid | backend/src/models/User.js:5-18 | the required name, email and password are non-empty, and the password has at least 6 UTF-16 code units |
| UserModel.ComparePassword | backend/src/models/User.js:89-92 | `comparePassword` is bcrypt's compare of the candidate with the stored digest |
| UserModel.PreSave | backend/src/models/User.js:75-87 | an unmodified password is left as it is; a modified one is replaced by a digest that verifies it, and that differs from it unless the password is itself shaped like a digest; no other field changes |
| UserModel.Create | backend/src/models/User.js:4-72 | `User.create` fails exactly when the document violates the schema; otherwise the user has the schema defaults, the given fields and a hashed password |
| UserModel.ComparePasswordAfterSave | backend/src/models/User.js:89-92 | after a save that hashed the password, `comparePassword` accepts the original password, and a candidate exactly when its key is the original's |
| UserModel.SaveWithoutModificationKeepsLogin | backend/src/models/User.js:77-79 | a later save without a password change keeps the digest, so the same password, and exactly the candidates with its key, still log in |
| UserController.SendFriendRequest | backend/src/controllers/user.controller.js:41-90 | the guards in order: 400 to oneself, 404 for an unknown recipient, 400 when already friends, 400 for an accepted or a pending request in either direction; 201 exactly when none applies. On 201 any declined request is replaced by one new pending request from me; otherwise nothing changes; invariants kept |
| UserController.ExistingRequestStatus | backend/src/controllers/user.controller.js:59-73 | the request found between the pair decides whether an accepted or a pending request exists in either direction, and whether every request between them is declined |
| UserController.ReplaceWithPending | backend/src/controllers/user.controller.js:75-83 | deleting the declined request and creating a pending one leaves exactly one request between the pair, listed as my outgoing and the recipient's incoming request |
| UserController.SendKeepsValid | backend/src/controllers/user.controller.js:75-83 | the replacement keeps every store invariant |
| UserController.SendKeepsRequestFacts | backend/src/controllers/user.controller.js:80-83 | the new request joins two existing users, is pending, and is then the only request between them |
| UserController.SendKeepsOnePerPair | backend/src/controllers/user.controller.js:75-83 | dropping the requests between the pair and creating one keeps at most one request per pair |
| UserController.AcceptFriendRequest | backend/src/controllers/user.controller.js:92-118 | 500 for an unknown id, 403 unless the actor is the recipient, with nothing changed. Otherwise the status becomes accepted whatever it was, and each user is in the other's friends by set insertion (no change when already friends); the request leaves the incoming listing and joins the sender's accepted listing |
| UserController.Befriend | backend/src/controllers/user.controller.js:105-111 | the two updates change only friend lists and keep the set of users |
| UserController.BefriendFriends | backend/src/controllers/user.controller.js:105-111 | after befriending, `x`'s friends are the old ones plus the other user; duplicate-freedom is kept |
| UserController.BefriendExisting | backend/src/controllers/user.controller.js:105-111 | befriending users who are already friends changes nothing |
| UserController.BefriendIdempotent | backend/src/controllers/user.controller.js:102-111 | accepting the same request twice leaves the friend lists as one acceptance does |
| UserController.BefriendKeepsGraph | backend/src/controllers/user.controller.js:105-111 | befriending keeps friendship symmetric, friend lists duplicate-free and emails unique |
| UserController.AcceptKeepsValid | backend/src/controllers/user.controller.js:102-111 | accepting keeps every store invariant and makes the pair mutual friends |
| UserController.AcceptKeepsRequests | backend/src/controllers/user.controller.js:102-111 | accepting keeps requests well formed and every accepted request joins friends |
| UserController.DeclineFriendRequest | backend/src/controllers/user.controller.js:120-135 | 500 for an unknown id and 403 unless the actor is the recipient, with nothing changed; otherwise only that request's status becomes declined, with no friend list touched even after an earlier accept |
| UserController.DeclineKeepsValid | backend/src/controllers/user.controller.js:128-129 | declining keeps every store invariant |
| UserController.DeclineKeepsRequests | backend/src/controllers/user.controller.js:128-129 | declining keeps requests well formed and accepted requests joining friends |
| UserController.IncomingRequests | backend/src/controllers/user.controller.js:139-142 | `incomingRequests`: the pending requests addressed to me |
| UserController.AcceptedSent | backend/src/controllers/user.controller.js:144-147 | `acceptReqs`: the accepted requests I sent |
| UserController.OutgoingRequests | backend/src/controllers/user.controller.js:158-161 | `getOutgoingFriendRequest`: the pending requests I sent |
| UserController.RecommendedUsers | backend/src/controllers/user.controller.js:14-20 | the onboarded users other than me and not among my friends |
| UserController.RecommendedAreStrangers | backend/src/controllers/user.controller.js:14-20 | with friendship symmetric, a recommended user (not me, not my friend, onboarded) does not list me as a friend either |
| UserController.AcceptedSentAreFriends | backend/src/controllers/user.controller.js:144-147 | every request in `acceptReqs` joins me and its recipient as mutual friends |
| UserController.IncomingDistinctSenders | backend/src/controllers/user.controller.js:139-142 | two different pending incoming requests come from different senders |
| UserController.FriendListedOnce | backend/src/controllers/user.controller.js:105-111 | a friend appears exactly once in each of the two friend lists |
| UserController.LikePost | backend/src/controllers/user.controller.js:238-257 | 404 for a missing post, 400 when already liked, otherwise the user id is appended; in every non-404 case the user occurs exactly once in the likes; nothing else changes |
| UserController.AddLikeToComment | backend/src/controllers/user.controller.js:294-312 | the same for comments |
| AuthController.SessionCookie | backend/src/controllers/auth.controller.js:52 | the `token` cookie is httpOnly, strict, secure exactly in production, and lives 604800000 ms, seven days like the token |
| AuthController.IndexOfChar | backend/src/controllers/auth.controller.js:19 | the first position of a character, or the length when it is absent |
| AuthController.MatchesEmailRegex | backend/src/controllers/auth.controller.js:19 | a match of `^[^\s@]+@[^\s@]+\.[^\s@]+$`: a non-empty local part, `@`, and a domain with a dot that has class characters on both sides |
| AuthController.EmailRegexTest | backend/src/controllers/auth.controller.js:19-20 | `emailRegex.test(email)` decided directly: class characters up to the first `@`, class characters after it with a dot strictly inside |
| AuthController.EmailRegexTestCorrect | backend/src/controllers/auth.controller.js:19-22 | the direct matcher accepts a string iff it matches `^[^\s@]+@[^\s@]+\.[^\s@]+$` |
| AuthController.TestImpliesMatch | backend/src/controllers/auth.controller.js:19 | every string the matcher accepts matches the expression |
| AuthController.MatchImpliesTest | backend/src/controllers/auth.controller.js:19 | every string matching the expression is accepted |
| AuthController.FirstAt | backend/src/controllers/auth.controller.js:19 | an `@` preceded only by class characters is the first `@` |
| AuthController.JoinAroundDot | backend/src/controllers/auth.controller.js:19 | class characters around a dot form a run of class characters |
| AuthController.AcceptedEmailShape | backend/src/controllers/auth.controller.js:19-22 | an accepted email has exactly one `@`, no whitespace, and does not start with `@` |
| AuthController.AvatarSeed | backend/src/controllers/auth.controller.js:29-30 | `index.toString().substring(7)` is empty for every index below ten million |
| AuthController.AvatarUrl | backend/src/controllers/auth.controller.js:31 | the avatar URL starts with the DiceBear base, and equals it for every index below ten million |
| AuthController.AvatarIsConstant | backend/src/controllers/auth.controller.js:29-31 | for every index in 1..100 the seed is empty and all avatar URLs are the same |
| AuthController.SignupBodyError | backend/src/controllers/auth.controller.js:12-22 | no error iff all three fields are present, the password has at least 6 UTF-16 code units and the email matches the expression; otherwise the first failing check's message, in that order |
| AuthController.SignupBodyPassesSchema | backend/src/models/User.js:4-18 | a body that passes the controller's checks also passes the schema's required and minlength rules |
| AuthController.AddUserKeepsValid | backend/src/models/User.js:9-13 | adding a user with a new email and no friends keeps every invariant |
| AuthController.Signup | backend/src/controllers/auth.controller.js:9-64 | 400 with the body's first error, then 400 for a registered email, with nothing changed; otherwise 201. The new user has the defaults (not verified, not onboarded), the given name and email, the constant avatar and a hashed password that verifies; a 7-day token and the session cookie are issued, and only the user table changes |
| AuthController.Login | backend/src/controllers/auth.controller.js:66-97 | 400 iff a field is missing; 200 iff some user has that email and the password verifies; with both fields present every other answer is 401 with the same "Invalid email or password." message, for an unknown email and a wrong password alike; on 200 the token and cookie name that user; nothing is written |
| AuthController.Logout | backend/src/controllers/auth.controller.js:99-102 | logout always succeeds with its message and clears a cookie that is secure exactly in production |
| AuthController.LogoutClearsSessionCookie | backend/src/controllers/auth.controller.js:99-102 | the cleared cookie has the name and attributes of the one set at signup and login |
| AuthController.SignupThenLogin | backend/src/controllers/auth.controller.js:9-97 | right after a successful signup, logging in with the same email and password succeeds as the new user |
| AuthController.UpdateProfileKeepsValid | backend/src/controllers/auth.controller.js:118-122 | changing profile fields only keeps every invariant |
| AuthController.Onboarding | backend/src/controllers/auth.controller.js:104-144 | 400 when any of the three fields is missing, with flags equal to each field's absence; then 404 for an unknown user; otherwise 200, setting the three fields and `isOnboarded` only, and answering the user without the password |
| PostController.Select | backend/src/controllers/post.controller.js:13 | a filter keeps each kept post with its multiplicity and drops all others |
| PostController.Insert | backend/src/controllers/post.controller.js:14 | inserting into a newest-first list keeps it newest first and adds exactly that post |
| PostController.SortNewestFirst | backend/src/controllers/post.controller.js:14 | `sort({ createdAt: -1 })` yields a newest-first permutation of its input |
| PostController.SortSorted | backend/src/controllers/post.controller.js:14 | an already newest-first list is left as it is |
| PostController.FriendFeed | backend/src/controllers/post.controller.js:5-21 | exactly the posts whose author is among my friends, each as often as stored, newest first |
| PostController.ExploreCutoff | backend/src/controllers/post.controller.js:43-44 | one week before now, in milliseconds |
| PostController.ExploreFeed | backend/src/controllers/post.controller.js:39-70 | exactly the posts from the last week whose author is neither a friend nor me, newest first |
| PostController.FeedsDisjoint | backend/src/controllers/post.controller.js:52-56 | no post is in both the friend feed and the explore feed |
| PostController.OwnPostsNotExplored | backend/src/controllers/post.controller.js:52 | my own posts never appear in my explore feed |
| PostController.ProfileData | backend/src/controllers/post.controller.js:23-37 | an unknown user fails (500); otherwise the user with exactly their posts, newest first |
| PostController.DeletePost | backend/src/controllers/post.controller.js:86-104 | 404 for a missing post, 403 for a non-author, with nothing changed; otherwise only that post is removed |
| PostController.DeleteComment | backend/src/controllers/post.controller.js:106-128 | 404 for a missing post, then 404 for a missing comment, then 403 for a non-author; otherwise only that comment is removed, whichever post it belongs to |
| JsString.Utf16Length | backend/src/controllers/auth.controller.js:15 | `length` counts code units: between one and two per character, one per character in the Basic Multilingual Plane |
| JsString.Substring | backend/src/controllers/auth.controller.js:30 | `substring(start)` is empty from the end of the string on, and is the tail otherwise |
| JsString.DigitChar | backend/src/controllers/auth.controller.js:30 | the ASCII digit of a value below ten |
| JsString.DecimalString | backend/src/controllers/auth.controller.js:30 | `toString()` of a natural number is non-empty ASCII digits without a leading zero |
| JsString.DigitValue | backend/src/controllers/auth.controller.js:30 | a digit's value is below ten and inverts `DigitChar` |
| JsString.ParseDecimalString | backend/src/controllers/auth.controller.js:30 | reading back a decimal string gives the number |
| JsString.DecimalStringLength | backend/src/controllers/auth.controller.js:30 | a number below 10^k has at most k digits |
| JsString.UnitsOf | frontend/src/pages/ChatPage.jsx:57 | one code unit below U+10000, otherwise a surrogate pair whose first unit is a high surrogate |
| JsString.CodeUnitsLength | frontend/src/pages/ChatPage.jsx:57 | the code units of a string number its `length` |
| JsString.CodeUnitsInjective | frontend/src/pages/ChatPage.jsx:57 | different strings have different code units |
| JsString.UnitsOfInjective | frontend/src/pages/ChatPage.jsx:57 | different characters have different code units |
| JsString.UnitsLessAsymmetric | frontend/src/pages/ChatPage.jsx:57 | lexicographic code-unit order is asymmetric |
| JsString.UnitsLessTotal | frontend/src/pages/ChatPage.jsx:57 | of two different code-unit sequences one comes first |
| JsString.UnitsLessTransitive | frontend/src/pages/ChatPage.jsx:57 | lexicographic code-unit order is transitive |
| JsString.StringLessTransitive | frontend/src/pages/ChatPage.jsx:57 | the default `sort` order of strings is transitive |
| JsString.StringLessTrichotomy | frontend/src/pages/ChatPage.jsx:57 | of two different strings exactly one comes first in the default `sort` order, and none comes before itself; with transitivity the order is a strict total order |
| JsString.Utf8Char | backend/src/models/User.js:82 | the UTF-8 bytes of a character: one byte, the character itself, below U+0080; otherwise two to four bytes whose continuation bytes lie in 0x80..0xBF |
| JsString.Utf8 | backend/src/models/User.js:82 | a string's UTF-8 encoding has between one and four bytes per character |
| JsString.Utf8Append | backend/src/models/User.js:82 | the encoding of a concatenation is the concatenation of the encodings |
| AppRouting.FirstMissingStep | frontend/src/App.jsx:30-32 | none iff signed in, verified and onboarded; otherwise login, verify-email or onboarding, in that order |
| AppRouting.Resolve | frontend/src/App.jsx:34-170 | the loader while loading; per route class: protected pages, the entry pages, /verify-email, /onboarding, and the always-rendered password pages |
| AppRouting.RedirectsSettle | frontend/src/App.jsx:45-166 | from every route in every loaded state two redirects at most reach a rendered page, which for the account routes is the first missing step's page (or the page asked for, or home) |
| AppRouting.RedirectTargets | frontend/src/App.jsx:45-166 | every redirect goes to /, /login, /verify-email or /onboarding |
| AppRouting.TwoRedirectsCanBeNeeded | frontend/src/App.jsx:49-50 | a verified, not onboarded account needs two redirects from /verify-email, so the bound of two is reached |
| EmailVerificationPage.JoinSingles | frontend/src/pages/EmailVerificationPage.jsx:48 | joining one-character slots gives one character per slot, in order |
| EmailVerificationPage.CodeInput.constructor | frontend/src/pages/EmailVerificationPage.jsx:10 | six empty slots, first one focused |
| EmailVerificationPage.JoinSlots | frontend/src/pages/EmailVerificationPage.jsx:48 | joining slots of at most one digit gives digits only, never more than the slots, and one per slot iff every slot is filled |
| EmailVerificationPage.CodeInput.Submission | frontend/src/pages/EmailVerificationPage.jsx:53-57 | the auto-submit effect sends a code iff every slot is filled, and it is `code.join('')`, six ASCII digits in slot order |
| EmailVerificationPage.CodeInput.FormSubmission | frontend/src/pages/EmailVerificationPage.jsx:46-51 | the form's submit button sends `code.join('')` whatever is filled: digits only, six of them iff every slot is filled (then the same as auto-submit), fewer otherwise |
| EmailVerificationPage.CodeInput.CopyCode | frontend/src/pages/EmailVerificationPage.jsx:27 | `[...code]` is a fresh array with the same slots |
| EmailVerificationPage.CodeInput.HandleChange | frontend/src/pages/EmailVerificationPage.jsx:25-36 | a value with a non-digit changes nothing; otherwise only slot `index` becomes the value's last character, the focus moves on only for a non-empty value before the last slot, and the result is what auto-submit sends for the new code; every slot stays empty or one digit |
| EmailVerificationPage.CodeInput.HandleKeyDown | frontend/src/pages/EmailVerificationPage.jsx:37-44 | backspace in an empty slot after the first clears only the slot before it and focuses it; anything else changes nothing; nothing is submitted |
| EmailVerificationPage.TypeCode | frontend/src/pages/EmailVerificationPage.jsx:25-57 | typing six digits into a fresh input, slot after slot, submits exactly those digits |
| ProfilePage.OutgoingIds | frontend/src/pages/ProfilePage.jsx:39-45 | the loop builds exactly the set of recipient ids of the outgoing requests |
| ProfilePage.IncomingIds | frontend/src/pages/ProfilePage.jsx:48-55 | the loop builds exactly the set of sender ids of `incomingRequests`, empty when it is missing |
| ProfilePage.AddOneRecipient | frontend/src/pages/ProfilePage.jsx:42 | one more request adds exactly its recipient |
| ProfilePage.AddOneSender | frontend/src/pages/ProfilePage.jsx:52 | one more request adds exactly its sender |
| ProfilePage.RecipientIds | frontend/src/pages/ProfilePage.jsx:39-45 | the recipient ids of a list of requests |
| ProfilePage.SenderIds | frontend/src/pages/ProfilePage.jsx:48-55 | the sender ids of a list of requests |
| ProfilePage.IncomingSenderIds | frontend/src/pages/ProfilePage.jsx:48-55 | the sender ids of `incomingRequests`, none when the payload or its list is missing |
| ProfilePage.IsFriend | frontend/src/pages/ProfilePage.jsx:59 | `userProfile?.friends?.includes(me)`: false without a profile or a friend list |
| ProfilePage.ButtonFor | frontend/src/pages/ProfilePage.jsx:57-59 | the button for the viewed profile, from friendship and the two id sets |
| ProfilePage.Button | frontend/src/pages/ProfilePage.jsx:104-114 | Friends iff a friend; Request Sent iff not a friend and asked; Request Received iff neither and asked by them; Add Friend otherwise |
| ProfilePage.Click | frontend/src/pages/ProfilePage.jsx:112 | a click sends a request iff the button is Add Friend and a profile is loaded |
| ProfilePage.ClickOnlyFromAdd | frontend/src/pages/ProfilePage.jsx:57-59 | a sent request goes to the loaded profile, which is not a friend (its friends do not list me), has not been asked and has not asked me |
| FriendsPage.Disabled | frontend/src/pages/FriendsPage.jsx:142 | a button is disabled when a request was sent, was received or a send is pending |
| FriendsPage.ButtonLabel | frontend/src/pages/FriendsPage.jsx:144-157 | Request Sent iff sent, Request Received iff only received, a spinner while the listings load, Send Friend Request otherwise |
| FriendsPage.CardFor | frontend/src/pages/FriendsPage.jsx:137-142 | disabled iff sent, received or a send is pending; an enabled button sends exactly that card's user id |
| FriendsPage.LabelAgreesWithDisabled | frontend/src/pages/FriendsPage.jsx:137-157 | a card saying a request exists is disabled; an enabled card offers to send one |
| FriendsPage.EmptyListingsEnableAll | frontend/src/pages/FriendsPage.jsx:43-59 | empty or missing listings give empty id sets, so only a pending send disables a card |
| FriendsPage.ClickMeansNoRequest | frontend/src/pages/FriendsPage.jsx:115-142 | a click sends a request only when no send is pending and no request exists in either direction |
| HomePage.NextPageParam | frontend/src/pages/HomePage.jsx:30-34 | the cursor iff the last page is an object with a non-empty cursor; reading it throws for a null page; otherwise undefined |
| HomePage.Contribution | frontend/src/pages/HomePage.jsx:38-39 | what one page adds: nothing for `null`, an array itself, an object its `posts` or nothing |
| HomePage.FlatMap | frontend/src/pages/HomePage.jsx:37-40 | the pages' contributions concatenated in page order |
| HomePage.AllExplorePosts | frontend/src/pages/HomePage.jsx:37-40 | without data or pages the list is empty |
| HomePage.FlatMapAppend | frontend/src/pages/HomePage.jsx:37-40 | flattening concatenates pages in order |
| HomePage.FetchAppends | frontend/src/pages/HomePage.jsx:37-46 | fetching a page keeps the list so far and appends that page's posts |
| HomePage.FlatMapMembership | frontend/src/pages/HomePage.jsx:37-40 | a post is listed iff some page contributes it |
| HomePage.NullPagesIgnored | frontend/src/pages/HomePage.jsx:38 | a null page contributes nothing |
| HomePage.HasNextPage | frontend/src/pages/HomePage.jsx:25-34 | there is a next page only when the last page is an object with a cursor |
| HomePage.ShouldFetchNext | frontend/src/pages/HomePage.jsx:42-46 | the effect fetches when the list's end is in view and there is a next page |
| HomePage.FetchNeedsCursor | frontend/src/pages/HomePage.jsx:42-46 | a fetch happens only in view and with a cursor from the last page |
| HomePage.PaginationStops | frontend/src/pages/HomePage.jsx:30-46 | a last page that is an array or has no cursor stops fetching |
| ChatPage.SortPair | frontend/src/pages/ChatPage.jsx:57 | `[me, target].sort()` is a permutation of the two ids whose first is not after the second |
| ChatPage.ChannelId | frontend/src/pages/ChatPage.jsx:57 | the id is one of the two dash-joined orders |
| ChatPage.OpenChannel | frontend/src/pages/ChatPage.jsx:59-61 | a messaging channel whose members are exactly the two users |
| ChatPage.ChannelIdSymmetric | frontend/src/pages/ChatPage.jsx:57-61 | both users open the same channel id, with the same members |
| ChatPage.SplitAtDash | frontend/src/pages/ChatPage.jsx:57 | a dash-joined pair whose first part has no dash splits back uniquely |
| ChatPage.ChannelIdDeterminesPair | frontend/src/pages/ChatPage.jsx:57 | for dash-free ids, equal channel ids mean the same pair of users |
| ChatPage.ShouldInitChat | frontend/src/pages/ChatPage.jsx:41 | the effect goes on only with a signed-in user and a non-empty token |
| ChatPage.InitChat | frontend/src/pages/ChatPage.jsx:39-77 | without a user and a token nothing happens; otherwise loading ends, and a successful connection sets the shared channel |
| ChatPage.ShowsLoader | frontend/src/pages/ChatPage.jsx:94-96 | the loader shows while loading or without a channel |
| ChatPage.LoaderUntilConnected | frontend/src/pages/ChatPage.jsx:41-98 | the loader stays without a user and a token or after a failed connection, and goes after a successful one |
| ChatPage.CallUrl | frontend/src/pages/ChatPage.jsx:81 | the call URL has the origin, `/call/` and the channel id |
| ChatPage.CallIdOf | frontend/src/pages/ChatPage.jsx:81 | a recovered call id rebuilds the URL it came from |
| ChatPage.CallUrlRoundTrip | frontend/src/pages/ChatPage.jsx:81 | the channel id is recovered from its call URL |
| ChatPage.CallLink | frontend/src/pages/ChatPage.jsx:89-107 | the call link exists iff the page has left the loader, and names the channel |
| ChatPage.VideoCallMessage | frontend/src/pages/ChatPage.jsx:79-87 | a message is sent iff there is a channel; it is the invitation text followed by that channel's call URL |
| ChatPage.BothSidesShareCall | frontend/src/pages/ChatPage.jsx:57-90 | after both users connect, their call links and invitations are identical |
| Emails.IndexOfFrom | backend/src/lib/nodemailer/emails.js:5 | the first occurrence at or after a position, or none at all |
| Emails.IndexOf | backend/src/lib/nodemailer/emails.js:5 | the first occurrence of the pattern, or none |
| Emails.Substitution | backend/src/lib/nodemailer/emails.js:5 | GetSubstitution without captures: `$$`, `$&`, the text before and after the match, any other `$` kept literally |
| Emails.LiteralSubstitution | backend/src/lib/nodemailer/emails.js:5 | a replacement without `$` is inserted as written |
| Emails.ReplaceFirst | backend/src/lib/nodemailer/emails.js:5 | without an occurrence nothing changes; the text before the first occurrence and all after it, later occurrences included, are kept |
| Emails.ReplaceFirstLiteral | backend/src/lib/nodemailer/emails.js:5 | a dollar-free replacement takes exactly the first occurrence's place |
| Emails.FirstPlaceholder | backend/src/lib/nodemailer/emails.js:5 | a brace placeholder after brace-free text is the first occurrence |
| Emails.FillPlaceholder | backend/src/lib/nodemailer/emails.js:5 | such a placeholder is replaced by a dollar-free value and nothing else changes |
| Emails.DollarPatternExpanded | backend/src/lib/nodemailer/emails.js:5 | a name of `$&` is expanded, putting the placeholder back |
| Emails.VerificationMail | backend/src/lib/nodemailer/emails.js:4-7 | the recipient is passed through and the subject is "Verify Your Email" |
| Emails.ResetRequestMail | backend/src/lib/nodemailer/emails.js:9-13 | the recipient is passed through and the subject is "Password Reset Request" |
| Emails.ResetSuccessMail | backend/src/lib/nodemailer/emails.js:15-18 | the recipient is passed through and the subject is "Password Reset Successful" |
| Emails.VerificationMailFilled | backend/src/lib/nodemailer/emails.js:5 | the code, then the name, land in their placeholders in a two-placeholder template |
| Emails.ResetRequestMailFilled | backend/src/lib/nodemailer/emails.js:11 | the link, then the name, land in their placeholders |
| Emails.ResetSuccessWithoutPlaceholder | backend/src/lib/nodemailer/emails.js:16 | a template without a placeholder is sent unchanged |
| Emails.NoPlaceholderNoMatch | backend/src/lib/nodemailer/emails.js:16 | text without a brace holds no brace placeholder |

## Left out

- MongoDB and Mongoose are modelled as maps and filters. Left out: the query engine
  (`$nin`, `$addToSet`, `populate`, projection, `lean`), ObjectId and string coercion, and
  result order other than the explicit `createdAt` sort.
- `backend/src/models/FriendRequest.js` is not part of this model. Its schema is taken to
  give a new request the status pending and to allow the three statuses used by the
  controller.
- `verifyEmail`, `forgotPassword` and `resetPassword` are not in the modelled controller
  and are not part of this model.
- `getMyFriends`, `getUserProfile`, `addPost`, `addComment` and `getComments` are left
  out: they list or create records without guards beyond what the other handlers show,
  and `addPost` depends on the Cloudinary upload.
- `searchUsers` passes user input to a case-insensitive `$regex`; a regular-expression
  engine is outside this model.
- `getPostComments` lacks an `await` and answers with a query object, so it has no
  behaviour of its own to state.
- JWT signing and verification, and the authentication middleware: a token is the record
  of its user id and expiry. bcrypt is a transparent stand-in whose one-wayness is not
  modelled.
- UserModel.Hash: the salt is a parameter (`genSalt` draws it at random). The digest is
  101 characters long, the prefix, the salt and the 72-byte key in clear, where a bcrypt
  digest is 60 characters with a 31-character cipher output after the salt. This does not
  change what comparison accepts.
- UserModel.CompareHash: the "only if" half holds of the stand-in only. A digest
  accepts only candidates with the same 72-byte key because the stand-in keeps the key;
  for real bcrypt this rests on the cipher having no collisions, which is not something
  that can be proved. The "if" half, including the 72-byte truncation, is bcrypt's own
  behaviour.
- UserModel.ComparePasswordAfterSave: its "only if" half rests on the stand-in having
  no collisions, as for CompareHash.
- UserModel.SaveWithoutModificationKeepsLogin: its "only if" half rests on the stand-in
  having no collisions, as for CompareHash.
- UserModel.PreSave: the stored digest is not promised to differ from the plaintext when
  the plaintext is itself shaped like a digest; bcrypt does not promise it either.
- The Stream chat service (`upsertStreamUser`, `connectUser`, `watch`, `sendMessage`), the
  Cloudinary upload and the SMTP transport are I/O. In signup and onboarding a failing
  Stream call is swallowed, so those models do not depend on it. In the chat page its
  success is the parameter `connected`.
- Concurrency is not modelled: every handler runs to completion alone. This leaves out
  duplicate concurrent friend requests and a crash between the two friend-list writes of
  an accept.
- `Math.random` is the parameter `avatarIndex`. `Date.now` and `new Date()` are the
  parameter `now`, in milliseconds.
- PostController.ExploreCutoff: `setDate(getDate() - 7)` is taken as exactly 7 × 86400000
  ms. A local-time day that is not 24 hours long, as at a daylight-saving change, is not
  modelled.
- PostController.SortNewestFirst: the order of posts with equal `createdAt` is fixed by a
  stable insertion; MongoDB leaves it unspecified.
- Server errors other than a missing record (the database failing, a thrown exception
  caught as 500) are not modelled except where the code throws on a missing record.
- HomePage.HasNextPage: a `getNextPageParam` that throws on a `null` last page is taken
  as "no next page"; the query library's error state is not modelled.
- EmailVerificationPage.CodeInput: DOM focus is the field `focused`. The form's button
  and the auto-submit effect both call `handleSubmit`; the model gives what each sends
  (`FormSubmission`, `Submission`), not the order in which a user might trigger them. `maxLength` and the
  browser's handling of the input element are not modelled. The verification request is
  the string the handlers return.
- ChatPage.InitChat: the effect's re-runs when its dependencies change, and the chat
  client object itself, are not modelled; the client is set together with the channel.
- Rendering, styling, toasts and navigation outside the route table are presentation and
  are not modelled.
