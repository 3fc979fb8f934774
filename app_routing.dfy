/**
 * The route table of the single-page application: which page a path renders, or where it
 * redirects, given the signed-in account's state. Protected pages require an account that
 * is signed in, verified and onboarded, and send the visitor to the first missing step.
 */
module AppRouting {
  import opened Wrappers

  /** The two flags of the signed-in account that routing looks at. */
  datatype AccountFlags = AccountFlags(isVerified: bool, isOnboarded: bool)

  /** What `useAuthUser()` reports: whether the account query is still loading, and the account, if any. */
  datatype Session = Session(isLoading: bool, authUser: Option<AccountFlags>)

  /** `Boolean(authUser)`. */
  predicate IsAuthenticated(s: Session) { s.authUser.Some? }

  /** `Boolean(authUser?.isVerified)`. */
  predicate IsVerified(s: Session) { s.authUser.Some? && s.authUser.value.isVerified }

  /** `Boolean(authUser?.isOnboarded)`. */
  predicate IsOnboarded(s: Session) { s.authUser.Some? && s.authUser.value.isOnboarded }

  /** A location; path parameters are carried along but do not affect routing. */
  datatype Route =
    | Home | Chat(chatId: string) | Call(callId: string) | Notifications | Friends
    | UserProfile | AddPost | ProfileOf(profileId: string)
    | Signup | Login | VerifyEmail | Onboarding
    | ForgotPassword | ResetPassword(token: string)
    | Unmatched

  datatype Page =
    | HomePage | ChatPage | CallPage | NotificationsPage | FriendsPage
    | UserProfilePage | AddNewPostPage | ProfilePage
    | SignUpPage | LoginPage | EmailVerificationPage | OnboardingPage
    | ForgotPasswordPage | ResetPasswordPage
    | Blank

  datatype View = Loader | Render(page: Page) | Redirect(to: Route)

  /** The pages that need a signed-in, verified, onboarded account. */
  predicate IsProtected(r: Route)
  {
    r.Home? || r.Chat? || r.Call? || r.Notifications? || r.Friends? || r.UserProfile? || r.AddPost? || r.ProfileOf?
  }

  /** The page a protected route shows once every step is done. */
  function ProtectedPage(r: Route): Page
    requires IsProtected(r)
  {
    match r
    case Home => HomePage
    case Chat(_) => ChatPage
    case Call(_) => CallPage
    case Notifications => NotificationsPage
    case Friends => FriendsPage
    case UserProfile => UserProfilePage
    case AddPost => AddNewPostPage
    case ProfileOf(_) => ProfilePage
  }

  /** The first step of the account flow the session has not completed: sign in, verify, onboard. */
  function FirstMissingStep(s: Session): (step: Option<Route>)
    ensures step.None? <==> IsAuthenticated(s) && IsVerified(s) && IsOnboarded(s)
    ensures step.Some? ==> step.value in {Login, VerifyEmail, Onboarding}
  {
    if !IsAuthenticated(s) then Some(Login)
    else if !IsVerified(s) then Some(VerifyEmail)
    else if !IsOnboarded(s) then Some(Onboarding)
    else None
  }

  /** The element `App` renders at `r`. */
  function Resolve(s: Session, r: Route): (v: View)
    // nothing is routed while the account query is loading
    ensures s.isLoading ==> v == Loader
    ensures !s.isLoading && IsProtected(r) ==>
              v == (if FirstMissingStep(s).None? then Render(ProtectedPage(r)) else Redirect(FirstMissingStep(s).value))
    // the entry pages are for visitors; a signed-in account continues its flow, ending at home
    ensures !s.isLoading && (r == Signup || r == Login) ==>
              v == (if !IsAuthenticated(s) then Render(if r == Signup then SignUpPage else LoginPage)
                    else Redirect(FirstMissingStep(s).GetOr(Home)))
    ensures !s.isLoading && r == VerifyEmail ==>
              v == (if !IsAuthenticated(s) then Redirect(Login)
                    else if IsVerified(s) then Redirect(Home) else Render(EmailVerificationPage))
    ensures !s.isLoading && r == Onboarding ==>
              v == (if FirstMissingStep(s) == Some(Login) || FirstMissingStep(s) == Some(VerifyEmail)
                    then Redirect(FirstMissingStep(s).value)
                    else if IsOnboarded(s) then Redirect(Home) else Render(OnboardingPage))
    // the password pages render in every state
    ensures !s.isLoading && r == ForgotPassword ==> v == Render(ForgotPasswordPage)
    ensures !s.isLoading && r.ResetPassword? ==> v == Render(ResetPasswordPage)
    ensures !s.isLoading && r == Unmatched ==> v == Render(Blank)
  {
    if s.isLoading then Loader
    else
      var auth, verified, onboarded := IsAuthenticated(s), IsVerified(s), IsOnboarded(s);
      match r
      case Signup =>
        if !auth then Render(SignUpPage)
        else if !verified then Redirect(VerifyEmail)
        else if !onboarded then Redirect(Onboarding)
        else Redirect(Home)
      case Login =>
        if !auth then Render(LoginPage)
        else if !verified then Redirect(VerifyEmail)
        else if !onboarded then Redirect(Onboarding)
        else Redirect(Home)
      case VerifyEmail =>
        if !auth then Redirect(Login)
        else if verified then Redirect(Home)
        else Render(EmailVerificationPage)
      case Onboarding =>
        if !auth then Redirect(Login)
        else if !verified then Redirect(VerifyEmail)
        else if onboarded then Redirect(Home)
        else Render(OnboardingPage)
      case ForgotPassword => Render(ForgotPasswordPage)
      case ResetPassword(_) => Render(ResetPasswordPage)
      case Unmatched => Render(Blank)
      case _ =>
        if !auth then Redirect(Login)
        else if !verified then Redirect(VerifyEmail)
        else if !onboarded then Redirect(Onboarding)
        else Render(ProtectedPage(r))
  }

  /** Follows at most `hops` redirects from `r`. */
  function Follow(s: Session, r: Route, hops: nat): View
    decreases hops
  {
    match Resolve(s, r)
    case Redirect(to) => if hops == 0 then Redirect(to) else Follow(s, to, hops - 1)
    case v => v
  }

  /** The page a session settles on: the first missing step's page, or the page asked for. */
  function Destination(s: Session, r: Route): Page
    requires IsProtected(r) || r in {Signup, Login, VerifyEmail, Onboarding}
  {
    match FirstMissingStep(s)
    case Some(Login) => if r == Signup then SignUpPage else LoginPage
    case Some(VerifyEmail) => EmailVerificationPage
    case Some(Onboarding) => OnboardingPage
    case _ => if IsProtected(r) then ProtectedPage(r) else HomePage
  }

  /**
   * There is no redirect loop: from every route, in every loaded state, at most two
   * redirects lead to a rendered page, and for the pages of the account flow it is the
   * page of the first missing step (or the page asked for, or home, once all are done).
   */
  lemma {:induction false} RedirectsSettle(s: Session, r: Route)
    requires !s.isLoading
    ensures Follow(s, r, 2).Render?
    ensures (IsProtected(r) || r in {Signup, Login, VerifyEmail, Onboarding}) ==>
              Follow(s, r, 2) == Render(Destination(s, r))
  {
    var v := Resolve(s, r);
    if v.Redirect? {
      var v2 := Resolve(s, v.to);
      if v2.Redirect? {
        assert Resolve(s, v2.to).Render?;
      }
    }
  }

  /** A redirect always points at one of the four flow routes, never back at a page with parameters. */
  lemma RedirectTargets(s: Session, r: Route)
    requires Resolve(s, r).Redirect?
    ensures Resolve(s, r).to in {Home, Login, VerifyEmail, Onboarding}
  {
  }

  /** Two redirects can be needed: a verified account that is not onboarded goes from /verify-email to / to /onboarding. */
  lemma TwoRedirectsCanBeNeeded()
    ensures var s := Session(false, Some(AccountFlags(true, false)));
            && Resolve(s, VerifyEmail) == Redirect(Home)
            && Resolve(s, Home) == Redirect(Onboarding)
            && Follow(s, VerifyEmail, 1).Redirect?
  {
  }
}
