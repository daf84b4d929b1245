/**
 * The login logic of www/html/enginex/home.php (lines 88-186): a session that
 * failed five times is locked out for 900 seconds, counted from its last failed
 * attempt; a forged CSRF token and wrong credentials count as failures, while
 * missing or over-long input and database errors do not.
 *
 * The database is an oracle: `connectOk` says whether opening the connection
 * succeeded (it is opened before the input is checked), `queryOk` whether the
 * user lookup ran (it runs only after the input checks), `account` is the row
 * found for the trimmed user name, and `passwordOk` the result of
 * password_verify(). The 32 random bytes of the new CSRF token are a parameter.
 */
module Login {
  import opened Wrappers
  import opened Text
  import opened Sessions

  const MaxAttempts := 5
  /** Seconds a lockout lasts. */
  const LockoutSeconds := 900
  const MaxUsernameLength := 50
  const MaxPasswordLength := 100

  const BadTokenMessage := "Error de seguridad: token inválido."
  const MissingFieldsMessage := "Usuario y contraseña son requeridos"
  const InvalidDataMessage := "Datos inválidos"
  const WrongCredentialsMessage := "Usuario o contraseña incorrectos"
  const SystemErrorMessage := "Error del sistema. Intenta más tarde."

  /** The `usuarios` row: id and user name (the password hash stays behind the
      password_verify oracle). */
  datatype Account = Account(id: int, username: string)

  /** The page either redirects to index.php after a login or shows a message. */
  datatype LoginResult = LoggedIn | Shown(message: string)

  /** The quotient of `a` by `b`, rounded up, for a positive divisor. */
  function CeilDiv(a: int, b: int): int
    requires b > 0
  {
    (a + b - 1) / b
  }

  function LockoutMessage(elapsed: int): string {
    "Demasiados intentos fallidos. Intenta nuevamente en " + IntToString(CeilDiv(LockoutSeconds - elapsed, 60)) + " minutos."
  }

  /** The lockout condition of line 98. */
  predicate LockedOut(attempts: int, elapsed: int) {
    attempts >= MaxAttempts && elapsed < LockoutSeconds
  }

  /** The minutes the lockout message reports round the seconds left up: the
      last partial minute counts as a whole one, and a lockout that began at or
      before `now` reports between 1 and 15 minutes. */
  lemma LockoutMinutes(elapsed: int)
    requires elapsed < LockoutSeconds
    ensures var m := CeilDiv(LockoutSeconds - elapsed, 60);
            (m - 1) * 60 < LockoutSeconds - elapsed <= m * 60
            && (0 <= elapsed ==> 1 <= m <= 15)
  {
    var left := LockoutSeconds - elapsed;
    var m := CeilDiv(left, 60);
    var q := (left - 1) / 60;
    var r := (left - 1) % 60;
    assert left - 1 == q * 60 + r && 0 <= r < 60;
    assert left + 59 == (q + 1) * 60 + r;
    assert m == q + 1;
  }

  /** The counter the page works with at `now` (lines 91-103): an unset counter
      starts at zero from `now`, and a lockout that has passed is forgotten. */
  function CounterAt(attempts: Option<int>, last: Option<int>, now: int): (c: int)
    ensures c == 0 || (attempts.Some? && c == attempts.value)
  {
    var a := if attempts.None? then 0 else attempts.value;
    var t := if attempts.None? then now else if last.Some? then last.value else 0;
    if !LockedOut(a, now - t) && now - t >= LockoutSeconds then 0 else a
  }

  /** The elapsed time of line 96, where a missing last-attempt time counts as 0. */
  function ElapsedAt(attempts: Option<int>, last: Option<int>, now: int): int {
    if attempts.None? then 0 else if last.Some? then now - last.value else now
  }

  /** Once the lockout time has passed since the last failure the failures are
      forgotten, whatever their number; before that the count is kept. */
  lemma CounterAfterLockout(attempts: int, last: int, now: int)
    ensures now - last >= LockoutSeconds ==> CounterAt(Some(attempts), Some(last), now) == 0
    ensures now - last < LockoutSeconds ==> CounterAt(Some(attempts), Some(last), now) == attempts
  {
  }

  /** The page reports a lockout exactly when the counter it then works with still
      holds five or more failures. */
  lemma LockoutMessageIffCounted(attempts: Option<int>, last: Option<int>, now: int)
    ensures var a := if attempts.None? then 0 else attempts.value;
            LockedOut(a, ElapsedAt(attempts, last, now)) <==> CounterAt(attempts, last, now) >= MaxAttempts
  {
  }

  /** A failed attempt at time `t` that reaches five failures shuts the login form
      for every later request in the 900 seconds that follow, and no longer: the
      page hands a POST to the credential check exactly from `t + 900` on. */
  lemma LockoutWindow(attempts: int, t: int, now: int)
    requires attempts >= MaxAttempts && now >= t
    ensures CounterAt(Some(attempts), Some(t), now) < MaxAttempts <==> now >= t + LockoutSeconds
    ensures now < t + LockoutSeconds ==> LockedOut(attempts, ElapsedAt(Some(attempts), Some(t), now))
  {
    CounterAfterLockout(attempts, t, now);
  }

  /** The session fields the login page reads and writes. */
  datatype LoginFields = LoginFields(attempts: Option<int>, last: Option<int>, id: Option<int>, name: Option<string>,
                                     login: Option<int>, agent: Option<string>, token: Option<string>)

  function Fields(s: Session): LoginFields
    reads s
  {
    LoginFields(s.loginAttempts, s.lastAttemptTime, s.usuarioId, s.usuarioNombre, s.loginTime, s.userAgent, s.csrfToken)
  }

  /** Lines 91-103 on the fields: the counter is initialised with `now` as the
      last attempt, and reset once the lockout time has passed. */
  function AfterLockout(f: LoginFields, now: int): (g: LoginFields)
    ensures g.attempts.Some?
  {
    f.(attempts := Some(CounterAt(f.attempts, f.last, now)), last := if f.attempts.None? then Some(now) else f.last)
  }

  /** A failure counted at `now`; nothing else changes. */
  function FailedAt(f: LoginFields, now: int): LoginFields
    requires f.attempts.Some?
  {
    f.(attempts := Some(f.attempts.value + 1), last := Some(now))
  }

  /** Lines 159-165: the logged-in session, with a fresh token. */
  function LoggedInAs(f: LoginFields, account: Account, now: int, requestUserAgent: string, entropy: seq<byte>): LoginFields {
    f.(id := Some(account.id), name := Some(HtmlEscape(account.username)), login := Some(now),
       agent := Some(requestUserAgent), attempts := Some(0), token := Some(BinToHex(entropy)))
  }

  /** Lines 110-113: both tokens present, not empty("…"), and equal. */
  predicate TokenAccepted(stored: Option<string>, postedToken: string) {
    !PhpEmpty(postedToken) && stored.Some? && !PhpEmpty(stored.value) && stored.value == postedToken
  }

  /** Lines 119-143: the message shown before the user is looked up, when the
      connection fails or the trimmed input is missing or too long; then the
      lookup itself may fail. */
  function InputRejection(connectOk: bool, queryOk: bool, username: string, password: string): Option<string> {
    if !connectOk then Some(SystemErrorMessage)
    else if PhpEmpty(username) || PhpEmpty(password) then Some(MissingFieldsMessage)
    else if |username| > MaxUsernameLength || |password| > MaxPasswordLength then Some(InvalidDataMessage)
    else if !queryOk then Some(SystemErrorMessage)
    else None
  }

  /** Lines 145-178: a found account with a matching password logs in; anything
      else counts a failure at `now`. */
  function Authenticated(f: LoginFields, now: int, requestUserAgent: string, account: Option<Account>, passwordOk: bool,
                         entropy: seq<byte>): (LoginResult, LoginFields)
    requires f.attempts.Some?
  {
    if account.Some? && passwordOk then (LoggedIn, LoggedInAs(f, account.value, now, requestUserAgent, entropy))
    else (Shown(WrongCredentialsMessage), FailedAt(f, now))
  }

  /** Lines 119-184: a rejected input shows its message and changes nothing. */
  function Checked(f: LoginFields, now: int, rawUsername: string, password: string, requestUserAgent: string,
                   connectOk: bool, queryOk: bool, account: Option<Account>, passwordOk: bool,
                   entropy: seq<byte>): (LoginResult, LoginFields)
    requires f.attempts.Some?
  {
    var rejection := InputRejection(connectOk, queryOk, Trim(rawUsername), password);
    if rejection.Some? then (Shown(rejection.value), f)
    else Authenticated(f, now, requestUserAgent, account, passwordOk, entropy)
  }

  /** Lines 107-185: a bad token counts a failure; a good one hands over to the
      credential check. */
  function Submitted(f: LoginFields, now: int, postedToken: string, rawUsername: string, password: string,
                     requestUserAgent: string, connectOk: bool, queryOk: bool, account: Option<Account>, passwordOk: bool,
                     entropy: seq<byte>): (LoginResult, LoginFields)
    requires f.attempts.Some?
  {
    if !TokenAccepted(f.token, postedToken) then (Shown(BadTokenMessage), FailedAt(f, now))
    else Checked(f, now, rawUsername, password, requestUserAgent, connectOk, queryOk, account, passwordOk, entropy)
  }

  /** A submission logs in exactly when the token matches, the connection opens,
      the trimmed name and the password are present and short enough, the lookup
      runs, the account exists and the password verifies; the user and the token
      then come from the account and the fresh bytes. */
  lemma LoginIff(f: LoginFields, now: int, postedToken: string, rawUsername: string, password: string,
                 requestUserAgent: string, connectOk: bool, queryOk: bool, account: Option<Account>, passwordOk: bool,
                 entropy: seq<byte>)
    requires f.attempts.Some?
    ensures var (r, g) := Submitted(f, now, postedToken, rawUsername, password, requestUserAgent, connectOk, queryOk,
                                    account, passwordOk, entropy);
            var username := Trim(rawUsername);
            && (r == LoggedIn <==>
                  TokenAccepted(f.token, postedToken) && connectOk && queryOk
                  && !PhpEmpty(username) && !PhpEmpty(password)
                  && |username| <= MaxUsernameLength && |password| <= MaxPasswordLength
                  && account.Some? && passwordOk)
            && (r == LoggedIn ==> g.id == Some(account.value.id) && g.attempts == Some(0)
                                  && g.token == Some(BinToHex(entropy)) && g.login == Some(now))
  {
  }

  /** Only a forged token and wrong credentials count as failures, and they change
      nothing but the counter and its time; every other message leaves the session
      as it was, and only a login changes the user. */
  lemma FailuresCounted(f: LoginFields, now: int, postedToken: string, rawUsername: string, password: string,
                        requestUserAgent: string, connectOk: bool, queryOk: bool, account: Option<Account>, passwordOk: bool,
                        entropy: seq<byte>)
    requires f.attempts.Some?
    ensures var (r, g) := Submitted(f, now, postedToken, rawUsername, password, requestUserAgent, connectOk, queryOk,
                                    account, passwordOk, entropy);
            && (r == Shown(BadTokenMessage) || r == Shown(WrongCredentialsMessage) ==>
                  g == f.(attempts := Some(f.attempts.value + 1), last := Some(now)))
            && (r.Shown? && r != Shown(BadTokenMessage) && r != Shown(WrongCredentialsMessage) ==> g == f)
            && (g.id != f.id ==> r == LoggedIn)
  {
  }

  /** Missing input is reported as such whenever the connection opened, whether
      or not the lookup would have run; a failed lookup is only reached with
      acceptable input. */
  lemma InputCheckedBeforeLookup(connectOk: bool, queryOk: bool, username: string, password: string)
    ensures connectOk && (PhpEmpty(username) || PhpEmpty(password)) ==>
              InputRejection(connectOk, queryOk, username, password) == Some(MissingFieldsMessage)
    ensures InputRejection(connectOk, queryOk, username, password) == Some(SystemErrorMessage) ==>
              !connectOk || (!queryOk && !PhpEmpty(username) && !PhpEmpty(password)
                             && |username| <= MaxUsernameLength && |password| <= MaxPasswordLength)
  {
  }

  /** Lines 91-103: initialise the counter, report a lockout, or reset the counter
      once the lockout time has passed since the last failure. */
  method CheckLockout(s: Session, now: int) returns (message: string)
    modifies s
    ensures var elapsed := ElapsedAt(old(s.loginAttempts), old(s.lastAttemptTime), now);
            var a := if old(s.loginAttempts).None? then 0 else old(s.loginAttempts).value;
            message == (if LockedOut(a, elapsed) then LockoutMessage(elapsed) else "")
    ensures Fields(s) == AfterLockout(old(Fields(s)), now)
    ensures s.rateLimits == old(s.rateLimits)
  {
    message := "";
    if s.loginAttempts.None? {
      s.loginAttempts := Some(0);
      s.lastAttemptTime := Some(now);
    }
    var last := if s.lastAttemptTime.Some? then s.lastAttemptTime.value else 0;
    var elapsed := now - last;
    if s.loginAttempts.value >= MaxAttempts && elapsed < LockoutSeconds {
      message := LockoutMessage(elapsed);
    } else if elapsed >= LockoutSeconds {
      s.loginAttempts := Some(0);
    }
  }

  /** Lines 107-185: a POST while fewer than five failures are counted. A bad CSRF
      token counts as a failure at `now`; otherwise the credentials are checked. */
  method SubmitCredentials(s: Session, now: int, postedToken: string, rawUsername: string, password: string,
                           requestUserAgent: string, connectOk: bool, queryOk: bool, account: Option<Account>, passwordOk: bool,
                           entropy: seq<byte>) returns (r: LoginResult)
    requires s.loginAttempts.Some?
    modifies s
    ensures (r, Fields(s)) == Submitted(old(Fields(s)), now, postedToken, rawUsername, password, requestUserAgent,
                                        connectOk, queryOk, account, passwordOk, entropy)
    ensures s.rateLimits == old(s.rateLimits)
  {
    var sessionToken := if s.csrfToken.Some? then s.csrfToken.value else "";
    if PhpEmpty(postedToken) || PhpEmpty(sessionToken) || sessionToken != postedToken {
      s.loginAttempts := Some(s.loginAttempts.value + 1);
      s.lastAttemptTime := Some(now);
      return Shown(BadTokenMessage);
    }
    r := CheckCredentials(s, now, rawUsername, password, requestUserAgent, connectOk, queryOk, account, passwordOk, entropy);
  }

  /** Lines 119-184, after the token check. */
  method CheckCredentials(s: Session, now: int, rawUsername: string, password: string,
                          requestUserAgent: string, connectOk: bool, queryOk: bool, account: Option<Account>, passwordOk: bool,
                          entropy: seq<byte>) returns (r: LoginResult)
    requires s.loginAttempts.Some?
    modifies s
    ensures (r, Fields(s)) == Checked(old(Fields(s)), now, rawUsername, password, requestUserAgent,
                                      connectOk, queryOk, account, passwordOk, entropy)
    ensures s.rateLimits == old(s.rateLimits)
  {
    var rejection := InputRejection(connectOk, queryOk, Trim(rawUsername), password);
    if rejection.Some? {
      return Shown(rejection.value);
    }
    r := Authenticate(s, now, requestUserAgent, account, passwordOk, entropy);
  }

  /** Lines 145-178: the session after the password check. */
  method Authenticate(s: Session, now: int, requestUserAgent: string, account: Option<Account>, passwordOk: bool,
                      entropy: seq<byte>) returns (r: LoginResult)
    requires s.loginAttempts.Some?
    modifies s
    ensures (r, Fields(s)) == Authenticated(old(Fields(s)), now, requestUserAgent, account, passwordOk, entropy)
    ensures s.rateLimits == old(s.rateLimits)
  {
    if account.Some? && passwordOk {
      s.usuarioId := Some(account.value.id);
      s.usuarioNombre := Some(HtmlEscape(account.value.username));
      s.loginTime := Some(now);
      s.userAgent := Some(requestUserAgent);
      s.loginAttempts := Some(0);
      s.csrfToken := Some(BinToHex(entropy));
      return LoggedIn;
    }
    s.loginAttempts := Some(s.loginAttempts.value + 1);
    s.lastAttemptTime := Some(now);
    return Shown(WrongCredentialsMessage);
  }

  /** Lines 88-186 at time `now`: credentials are only looked at for a POST while
      fewer than five failures are counted; otherwise the page shows the lockout
      message (or nothing). */
  method LoginPage(s: Session, now: int, isPost: bool, postedToken: string, rawUsername: string, password: string,
                   requestUserAgent: string, connectOk: bool, queryOk: bool, account: Option<Account>, passwordOk: bool,
                   entropy: seq<byte>) returns (r: LoginResult)
    modifies s
    ensures var f := old(Fields(s));
            var counter := CounterAt(f.attempts, f.last, now);
            isPost && counter < MaxAttempts ==>
              (r, Fields(s)) == Submitted(AfterLockout(f, now), now, postedToken, rawUsername, password, requestUserAgent,
                                          connectOk, queryOk, account, passwordOk, entropy)
    ensures var f := old(Fields(s));
            var counter := CounterAt(f.attempts, f.last, now);
            var elapsed := ElapsedAt(f.attempts, f.last, now);
            !(isPost && counter < MaxAttempts) ==>
              && r == Shown(if counter >= MaxAttempts then LockoutMessage(elapsed) else "")
              && Fields(s) == AfterLockout(f, now)
    ensures var counter := CounterAt(old(s.loginAttempts), old(s.lastAttemptTime), now);
            old(s.loginAttempts).Some? && counter >= MaxAttempts ==> Fields(s) == old(Fields(s))
    ensures s.rateLimits == old(s.rateLimits)
  {
    LockoutMessageIffCounted(s.loginAttempts, s.lastAttemptTime, now);
    var message := CheckLockout(s, now);
    if isPost && s.loginAttempts.value < MaxAttempts {
      r := SubmitCredentials(s, now, postedToken, rawUsername, password, requestUserAgent, connectOk, queryOk,
                             account, passwordOk, entropy);
    } else {
      r := Shown(message);
    }
  }
}
