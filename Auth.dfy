/**
 * The login gate in front of the panel mounted at `/ui`: the credential
 * check the launcher registers as its local strategy, and an abstract
 * two-state session (Anonymous, Authenticated) that says what each request
 * leads to. The session store and the middleware that enforces the gate
 * are not modelled; only the outcome the launcher configures them for is.
 */
module Auth {
  import opened Wrappers
  import opened QueueConfig

  /** The single account name the login form accepts. */
  const AdminUsername: string := "admin"

  /** Where the panel is mounted, and where a successful login goes. */
  const BasePath: string := "/ui"

  /** The login form, and where a failed or missing login goes. */
  const LoginPath: string := "/ui/login"

  /** The user record a successful login stores in the session. */
  datatype User = User(user: string)

  const BoardUser: User := User("bull-board")

  /** What the verify callback hands back: a user record, or `false`. */
  datatype Verdict = Accepted(user: User) | Rejected

  /**
   * The local strategy's verify callback: accepts exactly the user name
   * "admin" with the configured password, and then yields the board user.
   */
  function VerifyCredentials(configured: string, username: string, password: string): (v: Verdict)
    ensures v.Accepted? <==> username == AdminUsername && password == configured
    ensures v.Accepted? ==> v.user == BoardUser
  {
    if username == AdminUsername && password == configured then Accepted(BoardUser) else Rejected
  }

  /**
   * The fallback password opens the panel only where `PASSWORD` is unset,
   * empty, or itself "123456".
   */
  lemma DefaultPasswordOnlyWhenUnset(password: Option<string>)
    ensures VerifyCredentials(EffectivePassword(password), AdminUsername, DefaultPassword).Accepted?
        <==> password == None || password == Some("") || password == Some(DefaultPassword)
  {
    if password.Some? && password.value != "" {
      assert EffectivePassword(password) == password.value;
    }
  }

  /** A password valid under one configuration is refused under another. */
  lemma PasswordsDoNotCarryOver(a: Option<string>, b: Option<string>)
    requires EffectivePassword(a) != EffectivePassword(b)
    ensures VerifyCredentials(EffectivePassword(a), AdminUsername, EffectivePassword(a)).Accepted?
    ensures VerifyCredentials(EffectivePassword(b), AdminUsername, EffectivePassword(a)) == Rejected
  {
  }

  /**
   * An empty user name or password never gets in, because the effective
   * password is never empty; the strategy's own refusal of empty fields
   * therefore changes no outcome.
   */
  lemma EmptyFieldsRejected(env: Option<string>, username: string, password: string)
    requires username == "" || password == ""
    ensures VerifyCredentials(EffectivePassword(env), username, password) == Rejected
  {
  }

  /** The session, as seen by the gate. */
  datatype Session = Anonymous | Authenticated(user: User)

  /** What can happen to a browser's session. */
  datatype Event =
    | ShowLoginForm                                  // GET /ui/login
    | SubmitLogin(username: string, password: string) // POST /ui/login
    | OpenPanel(path: string)                        // any request under /ui
    | SessionExpired                                 // the session store drops the session

  /** What the browser gets back. */
  datatype Response = LoginForm | Redirect(location: string) | Panel(path: string) | NoResponse

  /**
   * One event. The session becomes (or stays) authenticated exactly on a
   * correct login or when it was authenticated and did not expire; the
   * login form is shown to any session; the requested panel is served
   * exactly for a panel request on an authenticated session; a login
   * answers with `/ui` when correct and `/ui/login` otherwise.
   */
  function Step(password: string, session: Session, event: Event): (out: (Session, Response))
    ensures out.0.Authenticated?
        <==> (session.Authenticated? && !event.SessionExpired?) || event == SubmitLogin(AdminUsername, password)
    ensures out.0.Authenticated? && out.0 != session ==> out.0 == Authenticated(BoardUser)
    ensures !event.SubmitLogin? && !event.SessionExpired? ==> out.0 == session
    ensures event.ShowLoginForm? ==> out.1 == LoginForm
    ensures out.1.Panel? <==> event.OpenPanel? && session.Authenticated?
    ensures event.OpenPanel? && session.Authenticated? ==> out.1 == Panel(event.path)
    ensures event.OpenPanel? && session.Anonymous? ==> out.1 == Redirect(LoginPath)
    ensures event.SubmitLogin?
        ==> (out.1 == Redirect(BasePath) <==> event == SubmitLogin(AdminUsername, password))
    ensures event.SubmitLogin? ==> out.1 in {Redirect(BasePath), Redirect(LoginPath)}
  {
    match event
    case ShowLoginForm => (session, LoginForm)
    case SubmitLogin(username, given) =>
      (match VerifyCredentials(password, username, given)
       case Accepted(user) => (Authenticated(user), Redirect(BasePath))
       case Rejected => (session, Redirect(LoginPath)))
    case OpenPanel(path) =>
      if session.Authenticated? then (session, Panel(path)) else (session, Redirect(LoginPath))
    case SessionExpired => (Anonymous, NoResponse)
  }

  /** A sequence of events from a starting session: the last session and every response. */
  function Run(password: string, session: Session, events: seq<Event>): (out: (Session, seq<Response>))
    ensures |out.1| == |events|
    decreases |events|
  {
    if events == [] then (session, [])
    else
      var first := Step(password, session, events[0]);
      var rest := Run(password, first.0, events[1..]);
      (rest.0, [first.1] + rest.1)
  }

  /** No session expiry among `events[lo..hi]`. */
  ghost predicate NoExpiry(events: seq<Event>, lo: int, hi: int) {
    forall m :: lo <= m < hi && 0 <= m < |events| ==> !events[m].SessionExpired?
  }

  /**
   * Before event `k` the session is signed in: it started authenticated
   * and has not expired since, or a correct login came earlier and the
   * session has not expired since.
   */
  ghost predicate SignedIn(password: string, session: Session, events: seq<Event>, k: int) {
    (session.Authenticated? && NoExpiry(events, 0, k))
    || exists j :: 0 <= j < k && j < |events|
         && events[j] == SubmitLogin(AdminUsername, password) && NoExpiry(events, j + 1, k)
  }

  /** Being signed in before event `k` is being signed in after the first event, before `k - 1`. */
  lemma SignedInShift(password: string, session: Session, events: seq<Event>, k: int)
    requires 0 < k <= |events|
    ensures SignedIn(password, session, events, k)
        <==> SignedIn(password, Step(password, session, events[0]).0, events[1..], k - 1)
  {
    var next := Step(password, session, events[0]).0;
    var tail := events[1..];
    var login := SubmitLogin(AdminUsername, password);
    assert forall m :: 0 <= m < |tail| ==> tail[m] == events[m + 1];
    assert NoExpiry(events, 0, k) <==> !events[0].SessionExpired? && NoExpiry(tail, 0, k - 1);
    if SignedIn(password, session, events, k) {
      if !(session.Authenticated? && NoExpiry(events, 0, k)) {
        var j :| 0 <= j < k && j < |events| && events[j] == login && NoExpiry(events, j + 1, k);
        if j > 0 {
          assert tail[j - 1] == login && NoExpiry(tail, j, k - 1);
        } else {
          assert next.Authenticated? && NoExpiry(tail, 0, k - 1);
        }
      }
    }
    if SignedIn(password, next, tail, k - 1) {
      if !(next.Authenticated? && NoExpiry(tail, 0, k - 1)) {
        var j :| 0 <= j < k - 1 && j < |tail| && tail[j] == login && NoExpiry(tail, j + 1, k - 1);
        assert events[j + 1] == login && NoExpiry(events, j + 2, k);
      } else if events[0] == login {
        assert NoExpiry(events, 1, k);
      }
    }
  }

  /**
   * The gate: the response to event `k` is the panel exactly when event `k`
   * asks for it and the session is signed in at that point.
   */
  lemma {:induction false} PanelOnlyWhenSignedIn(password: string, session: Session, events: seq<Event>, k: nat)
    requires k < |events|
    ensures Run(password, session, events).1[k].Panel?
        <==> events[k].OpenPanel? && SignedIn(password, session, events, k)
    decreases k
  {
    var first := Step(password, session, events[0]);
    if k == 0 {
      assert Run(password, session, events).1[0] == first.1;
    } else {
      PanelOnlyWhenSignedIn(password, first.0, events[1..], k - 1);
      SignedInShift(password, session, events, k);
      assert Run(password, session, events).1[k] == Run(password, first.0, events[1..]).1[k - 1];
    }
  }

  /** From an anonymous session, the panel is never served before a correct login. */
  lemma NoPanelBeforeLogin(password: string, events: seq<Event>, k: nat)
    requires k < |events|
    requires forall j :: 0 <= j < k ==> events[j] != SubmitLogin(AdminUsername, password)
    ensures !Run(password, Anonymous, events).1[k].Panel?
  {
    PanelOnlyWhenSignedIn(password, Anonymous, events, k);
  }
}
