/**
 * Account creation, login and onboarding. Signup validates the request body in a fixed
 * order (presence, password length, email shape, unused email) before it creates the
 * user; login answers every credential failure with one and the same 401; onboarding
 * reports which of its three fields are missing.
 *
 * Signing a token (JWT) is abstracted to the claims it carries; the signing secret and
 * the signature itself are not modelled. The avatar index, drawn from `Math.random`,
 * the salt and the current time are parameters.
 */
module AuthController {
  import opened Wrappers
  import JsString
  import opened UserModel
  import opened Db

  const FieldsRequiredMessage := "All fields are required."
  const PasswordTooShortMessage := "Password must be at least 6 characters long."
  const InvalidEmailMessage := "Invalid email format."
  const EmailTakenMessage := "Email is already registered."
  const LoginFieldsRequiredMessage := "Email and password are required."
  const InvalidCredentialsMessage := "Invalid email or password."
  const OnboardingFieldsRequiredMessage := "All fields are required for onboarding."
  const UserNotFoundMessage := "User not found."

  const MinPasswordLength: nat := 6

  const AvatarBase := "https://api.dicebear.com/7.x/avataaars/svg?seed="

  /** The `expiresIn` of every token issued. */
  const TokenExpiry := "7d"

  /** The cookie's `maxAge`, `7 * 24 * 60 * 60 * 1000` milliseconds: the same seven days as the token. */
  const CookieMaxAgeMs: nat := 7 * 24 * 60 * 60 * 1000

  /** The claims of `jwt.sign({ userId }, secret, { expiresIn })`. */
  datatype Token = Token(userId: UserId, expiresIn: string)

  /** The `token` cookie set by signup and login. */
  datatype Cookie = Cookie(name: string, value: Token, httpOnly: bool, secure: bool, maxAgeMs: nat, sameSite: string)

  /** The `missingFields` object of a refused onboarding. */
  datatype MissingFields = MissingFields(profilePic: bool, bio: bool, location: bool)

  /** The session cookie for `token`; it is `secure` exactly in production. */
  function SessionCookie(token: Token, production: bool): (c: Cookie)
    ensures c.value == token && c.name == "token"
    ensures c.httpOnly && c.secure == production && c.sameSite == "strict"
    ensures c.maxAgeMs == 604800000
  {
    Cookie("token", token, true, production, CookieMaxAgeMs, "strict")
  }

  // ---------------------------------------------------------------------------
  // The email regular expression /^[^\s@]+@[^\s@]+\.[^\s@]+$/
  // ---------------------------------------------------------------------------

  /** The class `[^\s@]`. */
  predicate InClass(c: char)
  {
    !JsString.IsJsWhitespace(c) && c != '@'
  }

  /** `[^\s@]*` matches the whole string. */
  predicate AllInClass(s: string)
  {
    forall k :: 0 <= k < |s| ==> InClass(s[k])
  }

  /**
   * What the regular expression matches: a local part, `@`, a first domain part, `.`,
   * and a last domain part, each part one or more characters of `[^\s@]`, and nothing
   * before or after.
   */
  ghost predicate MatchesEmailRegex(s: string)
  {
    exists at, dot :: 0 < at && at + 1 < dot && dot + 1 < |s|
      && s[at] == '@' && s[dot] == '.'
      && AllInClass(s[..at]) && AllInClass(s[at + 1..dot]) && AllInClass(s[dot + 1..])
  }

  /** `s.indexOf(c)`, with `|s|` standing for "not found". */
  function IndexOfChar(s: string, c: char): (k: nat)
    ensures k <= |s|
    ensures k < |s| ==> s[k] == c
    ensures forall j :: 0 <= j < k ==> s[j] != c
  {
    if s == [] then 0
    else if s[0] == c then 0
    else 1 + IndexOfChar(s[1..], c)
  }

  /** `emailRegex.test(email)`, decided by locating the `@` and then a dot inside the domain. */
  function EmailRegexTest(s: string): bool
  {
    var at := IndexOfChar(s, '@');
    && 0 < at < |s|
    && AllInClass(s[..at])
    && AllInClass(s[at + 1..])
    && exists k :: at + 1 < k < |s| - 1 && s[k] == '.'
  }

  /** The decision procedure accepts exactly the strings the regular expression matches. */
  lemma EmailRegexTestCorrect(s: string)
    ensures EmailRegexTest(s) <==> MatchesEmailRegex(s)
  {
    if EmailRegexTest(s) {
      TestImpliesMatch(s);
    }
    if MatchesEmailRegex(s) {
      MatchImpliesTest(s);
    }
  }

  lemma TestImpliesMatch(s: string)
    requires EmailRegexTest(s)
    ensures MatchesEmailRegex(s)
  {
    var at := IndexOfChar(s, '@');
    var domain := s[at + 1..];
    var dot :| at + 1 < dot < |s| - 1 && s[dot] == '.';
    var first, last := s[at + 1..dot], s[dot + 1..];
    assert AllInClass(first) by {
      forall k | 0 <= k < |first| ensures InClass(first[k]) {
        assert first[k] == domain[k];
      }
    }
    assert AllInClass(last) by {
      forall k | 0 <= k < |last| ensures InClass(last[k]) {
        assert last[k] == domain[dot - at + k];
      }
    }
  }

  lemma MatchImpliesTest(s: string)
    requires MatchesEmailRegex(s)
    ensures EmailRegexTest(s)
  {
    var a, dot :| 0 < a && a + 1 < dot && dot + 1 < |s|
      && s[a] == '@' && s[dot] == '.'
      && AllInClass(s[..a]) && AllInClass(s[a + 1..dot]) && AllInClass(s[dot + 1..]);
    FirstAt(s, a);
    JoinAroundDot(s, a + 1, dot);
  }

  /** The `@` after a run of class characters is the first one. */
  lemma FirstAt(s: string, a: nat)
    requires a < |s| && s[a] == '@' && AllInClass(s[..a])
    ensures IndexOfChar(s, '@') == a
  {
    var local := s[..a];
    forall j | 0 <= j < a ensures s[j] != '@' {
      assert local[j] == s[j] && InClass(local[j]);
    }
  }

  /** Two runs of class characters joined by a dot form one run. */
  lemma JoinAroundDot(s: string, from: nat, dot: nat)
    requires from <= dot < |s| && s[dot] == '.'
    requires AllInClass(s[from..dot]) && AllInClass(s[dot + 1..])
    ensures AllInClass(s[from..])
  {
    var first, last, all := s[from..dot], s[dot + 1..], s[from..];
    forall k | 0 <= k < |all| ensures InClass(all[k]) {
      if from + k < dot {
        assert all[k] == first[k];
      } else if from + k > dot {
        assert all[k] == last[from + k - dot - 1];
      }
    }
  }

  /** An accepted email holds exactly one `@`, no whitespace, and a non-empty local part. */
  lemma AcceptedEmailShape(s: string)
    requires EmailRegexTest(s)
    ensures multiset(s)['@'] == 1
    ensures forall k :: 0 <= k < |s| ==> !JsString.IsJsWhitespace(s[k])
    ensures s[0] != '@'
  {
    var at := IndexOfChar(s, '@');
    var local, domain := s[..at], s[at + 1..];
    assert s == local + [s[at]] + domain;
    assert '@' !in local by {
      forall k | 0 <= k < |local| ensures local[k] != '@' { assert InClass(local[k]); }
    }
    assert '@' !in domain by {
      forall k | 0 <= k < |domain| ensures domain[k] != '@' { assert InClass(domain[k]); }
    }
    calc {
      multiset(s)['@'];
      (multiset(local) + multiset([s[at]]) + multiset(domain))['@'];
      0 + 1 + 0;
    }
    forall k | 0 <= k < |s| ensures !JsString.IsJsWhitespace(s[k]) {
      if k < at {
        assert s[k] == local[k];
      } else if k > at {
        assert s[k] == domain[k - at - 1];
      }
    }
  }

  // ---------------------------------------------------------------------------
  // The avatar
  // ---------------------------------------------------------------------------

  /** `index.toString().substring(7)`: the digits of the index from the eighth on. */
  function AvatarSeed(index: nat): (seed: string)
    ensures index < 10000000 ==> seed == ""
  {
    var digits := JsString.DecimalString(index);
    assert index < 10000000 ==> |digits| <= 7 by {
      if index < 10000000 {
        assert JsString.Power10(7) == 10000000;
        JsString.DecimalStringLength(index, 7);
      }
    }
    JsString.Substring(digits, 7)
  }

  /** The avatar URL signup stores. */
  function AvatarUrl(index: nat): (url: string)
    ensures index < 10000000 ==> url == AvatarBase
    ensures |url| >= |AvatarBase| && url[..|AvatarBase|] == AvatarBase
  {
    AvatarBase + AvatarSeed(index)
  }

  /** Every index `Math.floor(Math.random() * 100) + 1` can produce gives the same, seedless avatar. */
  lemma AvatarIsConstant(i: nat, j: nat)
    requires 1 <= i <= 100 && 1 <= j <= 100
    ensures AvatarSeed(i) == "" && AvatarUrl(i) == AvatarUrl(j) == AvatarBase
  {
  }

  // ---------------------------------------------------------------------------
  // signup
  // ---------------------------------------------------------------------------

  /**
   * The validation half of `signup`, without the database: the first failing check's
   * message, or `None` when the body passes.
   */
  function SignupBodyError(fullName: string, email: string, password: string): (err: Option<string>)
    ensures err.None? <==> && fullName != "" && email != "" && password != ""
                           && JsString.Utf16Length(password) >= MinPasswordLength
                           && MatchesEmailRegex(email)
    ensures (fullName == "" || email == "" || password == "") ==> err == Some(FieldsRequiredMessage)
    ensures fullName != "" && email != "" && password != "" && JsString.Utf16Length(password) < MinPasswordLength
            ==> err == Some(PasswordTooShortMessage)
    ensures (&& fullName != "" && email != "" && password != ""
             && JsString.Utf16Length(password) >= MinPasswordLength && !MatchesEmailRegex(email))
            ==> err == Some(InvalidEmailMessage)
  {
    EmailRegexTestCorrect(email);
    if fullName == "" || email == "" || password == "" then Some(FieldsRequiredMessage)
    else if JsString.Utf16Length(password) < MinPasswordLength then Some(PasswordTooShortMessage)
    else if !EmailRegexTest(email) then Some(InvalidEmailMessage)
    else None
  }

  /** A body that passes the handler's own checks also satisfies the schema, so `User.create` cannot refuse it. */
  lemma SignupBodyPassesSchema(fullName: string, email: string, password: string, profilePic: string, now: int)
    requires SignupBodyError(fullName, email, password).None?
    ensures SchemaValid(NewDocument(fullName, email, password, profilePic, now))
  {
  }

  /** Adding a user with a fresh id, an unused email and no friends keeps the database invariants. */
  lemma AddUserKeepsValid(
    users: map<UserId, User>, requests: map<RequestId, FriendRequest>,
    posts: map<PostId, Post>, comments: map<CommentId, Comment>, nextId: nat, u: User)
    requires ValidState(users, requests, posts, comments, nextId)
    requires forall x :: x in users ==> users[x].email != u.email
    requires u.friends == []
    ensures ValidState(users[nextId := u], requests, posts, comments, nextId + 1)
  {
    var users' := users[nextId := u];
    assert nextId !in users;
    assert forall x :: x in users ==> users'[x] == users[x];
    assert IdsBelow(users', nextId + 1) && IdsBelow(requests, nextId + 1);
    assert IdsBelow(posts, nextId + 1) && IdsBelow(comments, nextId + 1);
    assert EmailsUnique(users');
    forall a, b | a in users' && b in users'[a].friends
      ensures a != b && b in users' && a in users'[b].friends
    {
      assert a in users && b in users[a].friends;
      assert b in users && b != nextId;
    }
    assert FriendListsDistinct(users') by {
      assert NoDuplicates(u.friends);
    }
    assert RequestsWellFormed(requests, users');
    assert AcceptedAreFriends(requests, users');
  }

  /**
   * `signup`. On success the new user is stored under a fresh id with the hashed
   * password and the seedless avatar, and the response carries the user, a seven-day
   * token for it and the matching cookie. The Stream upsert that follows creation is
   * outside the model; its failure is caught and does not change the response.
   */
  method Signup(store: Store, fullName: string, email: string, password: string,
                avatarIndex: nat, salt: Salt, now: int, production: bool)
    returns (status: int, message: string, user: Option<User>, token: Option<Token>, cookie: Option<Cookie>)
    requires store.Valid()
    modifies store
    ensures store.Valid()
    ensures SignupBodyError(fullName, email, password).Some? ==>
              status == 400 && message == SignupBodyError(fullName, email, password).value
    ensures SignupBodyError(fullName, email, password).None? && (exists u :: u in old(store.users) && old(store.users[u].email) == email)
            ==> status == 400 && message == EmailTakenMessage
    ensures status == 201 <==> SignupBodyError(fullName, email, password).None?
                                && forall u :: u in old(store.users) ==> old(store.users[u].email) != email
    ensures status == 201 || status == 400
    ensures status != 201 ==> unchanged(store) && user.None? && token.None? && cookie.None?
    ensures status == 201 ==>
              var id := old(store.nextId);
              && user.Some? && token == Some(Token(id, TokenExpiry))
              && cookie == Some(SessionCookie(token.value, production))
              && store.users == old(store.users)[id := user.value]
              && id !in old(store.users)
              && HasSchemaDefaults(user.value) && !user.value.isVerified && !user.value.isOnboarded
              && user.value.fullName == fullName && user.value.email == email
              && user.value.profilePic == AvatarUrl(avatarIndex)
              && IsDigest(user.value.password) && ComparePassword(user.value, password)
              && (!IsDigest(password) ==> user.value.password != password)
    ensures store.requests == old(store.requests) && store.posts == old(store.posts) && store.comments == old(store.comments)
  {
    user, token, cookie := None, None, None;
    var err := SignupBodyError(fullName, email, password);
    if err.Some? {
      status, message := 400, err.value;
      return;
    }
    var existing := store.FindUserByEmail(email);
    if existing.Some? {
      status, message := 400, EmailTakenMessage;
      return;
    }
    var profilePic := AvatarUrl(avatarIndex);
    SignupBodyPassesSchema(fullName, email, password, profilePic, now);
    var created := Create(fullName, email, password, profilePic, salt, now);
    ghost var users0 := store.users;
    var id := store.FreshId();
    store.users := store.users[id := created.value];
    AddUserKeepsValid(users0, store.requests, store.posts, store.comments, id, created.value);
    status, message := 201, "";
    user := created;
    token := Some(Token(id, TokenExpiry));
    cookie := Some(SessionCookie(token.value, production));
  }

  // ---------------------------------------------------------------------------
  // login
  // ---------------------------------------------------------------------------

  /**
   * `login`. The account is looked up by exact email; an unknown email and a wrong
   * password are refused alike, so a response does not tell whether an email is
   * registered. Login checks neither `isVerified` nor `isOnboarded` and writes nothing.
   */
  method Login(store: Store, email: string, password: string, production: bool)
    returns (status: int, message: string, userId: Option<UserId>, token: Option<Token>, cookie: Option<Cookie>)
    requires store.Valid()
    ensures status == 400 <==> email == "" || password == ""
    ensures status == 400 ==> message == LoginFieldsRequiredMessage
    // an unknown email and a wrong password get the same answer
    ensures email != "" && password != "" && status != 200 ==> status == 401 && message == InvalidCredentialsMessage
    ensures status == 200 <==> email != "" && password != ""
                               && exists u :: u in store.users && store.users[u].email == email
                                              && ComparePassword(store.users[u], password)
    ensures status == 200 || status == 400 || status == 401
    ensures status == 401 ==> message == InvalidCredentialsMessage
    ensures status != 200 ==> userId.None? && token.None? && cookie.None?
    ensures status == 200 ==>
              && userId.Some? && userId.value in store.users && store.users[userId.value].email == email
              && token == Some(Token(userId.value, TokenExpiry))
              && cookie == Some(SessionCookie(token.value, production))
  {
    userId, token, cookie := None, None, None;
    if email == "" || password == "" {
      status, message := 400, LoginFieldsRequiredMessage;
      return;
    }
    var found := store.FindUserByEmail(email);
    if found.None? {
      status, message := 401, InvalidCredentialsMessage;
      return;
    }
    if !ComparePassword(store.users[found.value], password) {
      status, message := 401, InvalidCredentialsMessage;
      return;
    }
    status, message := 200, "";
    userId := found;
    token := Some(Token(found.value, TokenExpiry));
    cookie := Some(SessionCookie(token.value, production));
  }

  // ---------------------------------------------------------------------------
  // logout
  // ---------------------------------------------------------------------------

  const LoggedOutMessage := "Logged out successfully."

  /** The `clearCookie` directive: the cookie to drop, named by the same attributes it was set with. */
  datatype ClearedCookie = ClearedCookie(name: string, httpOnly: bool, secure: bool, sameSite: string)

  /** `logout`: always 200, clearing the session cookie; it needs no user and changes no record. */
  function Logout(production: bool): (r: (int, string, ClearedCookie))
    ensures r.0 == 200 && r.1 == LoggedOutMessage
    ensures r.2.secure == production
  {
    (200, LoggedOutMessage, ClearedCookie("token", true, production, "strict"))
  }

  /** The cookie logout clears is the one signup and login set, in the same environment. */
  lemma LogoutClearsSessionCookie(token: Token, production: bool)
    ensures var cleared, issued := Logout(production).2, SessionCookie(token, production);
            && cleared.name == issued.name && cleared.httpOnly == issued.httpOnly
            && cleared.secure == issued.secure && cleared.sameSite == issued.sameSite
  {
  }

  /** Logging in right after signing up, with the same email and password, succeeds as the new user. */
  method SignupThenLogin(store: Store, fullName: string, email: string, password: string,
                         avatarIndex: nat, salt: Salt, now: int, production: bool)
    returns (signupStatus: int, loginStatus: int, loginId: Option<UserId>)
    requires store.Valid()
    modifies store
    ensures signupStatus == 201 ==> loginStatus == 200 && loginId == Some(old(store.nextId))
  {
    var message, user, token, cookie;
    signupStatus, message, user, token, cookie := Signup(store, fullName, email, password, avatarIndex, salt, now, production);
    if signupStatus == 201 {
      ghost var id := old(store.nextId);
      assert store.users[id].email == email && ComparePassword(store.users[id], password);
    }
    loginStatus, message, loginId, token, cookie := Login(store, email, password, production);
  }

  // ---------------------------------------------------------------------------
  // onboarding
  // ---------------------------------------------------------------------------

  /** Changing a user's profile fields, and nothing that the invariants speak of, keeps them. */
  lemma UpdateProfileKeepsValid(
    users: map<UserId, User>, requests: map<RequestId, FriendRequest>,
    posts: map<PostId, Post>, comments: map<CommentId, Comment>, nextId: nat, id: UserId, u: User)
    requires ValidState(users, requests, posts, comments, nextId)
    requires id in users && u.email == users[id].email && u.friends == users[id].friends
    ensures ValidState(users[id := u], requests, posts, comments, nextId)
  {
    var users' := users[id := u];
    assert forall x :: x in users ==> users'[x].friends == users[x].friends && users'[x].email == users[x].email;
  }

  /**
   * `onboarding` for the authenticated user `userId`. The three fields are checked before
   * the user is looked up; the response user leaves out the password, which is shown here
   * as an empty `password`.
   */
  method Onboarding(store: Store, userId: UserId, profilePic: string, bio: string, location: string)
    returns (status: int, message: string, missing: Option<MissingFields>, user: Option<User>)
    requires store.Valid()
    modifies store
    ensures store.Valid()
    ensures profilePic == "" || bio == "" || location == "" ==>
              && status == 400 && message == OnboardingFieldsRequiredMessage
              && missing == Some(MissingFields(profilePic == "", bio == "", location == ""))
    ensures profilePic != "" && bio != "" && location != "" && userId !in old(store.users) ==>
              status == 404 && message == UserNotFoundMessage
    ensures status == 200 <==> profilePic != "" && bio != "" && location != "" && userId in old(store.users)
    ensures status != 400 ==> missing.None?
    ensures status != 200 ==> unchanged(store) && user.None?
    ensures status == 200 ==>
              var updated := old(store.users[userId]).(profilePic := profilePic, bio := bio, location := location, isOnboarded := true);
              && store.users == old(store.users)[userId := updated]
              && user == Some(updated.(password := ""))
    ensures store.requests == old(store.requests) && store.posts == old(store.posts)
    ensures store.comments == old(store.comments) && store.nextId == old(store.nextId)
  {
    missing, user := None, None;
    if profilePic == "" || bio == "" || location == "" {
      status, message := 400, OnboardingFieldsRequiredMessage;
      missing := Some(MissingFields(profilePic == "", bio == "", location == ""));
      return;
    }
    if userId !in store.users {
      status, message := 404, UserNotFoundMessage;
      return;
    }
    var updated := store.users[userId].(profilePic := profilePic, bio := bio, location := location, isOnboarded := true);
    UpdateProfileKeepsValid(store.users, store.requests, store.posts, store.comments, store.nextId, userId, updated);
    store.users := store.users[userId := updated];
    status, message := 200, "";
    user := Some(updated.(password := ""));
  }
}
