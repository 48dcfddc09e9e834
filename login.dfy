/** Login: posts the credentials and, when the institution redirects to its
    multi-factor page, answers the challenge question from the caller's
    question-to-answer map. */
module Login {
  import opened Js
  import opened Settlement
  import opened Model

  /** The redirect target that signals a multi-factor challenge, compared as
      exact text. */
  const MfaLocation: string := "http://firstplaidypus.herokuapp.com/mfa/"

  /** The login form POST. */
  function LoginRequest(creds: Credentials): Request {
    Request(Post, BaseUrl + "login",
      [FormField("username", Some(creds.username)), FormField("password", Some(creds.password))])
  }

  /** The challenge page request. */
  function ChallengeRequest(): Request {
    Request(Get, BaseUrl + "mfa", [])
  }

  /** The challenge answer POST; an `undefined` answer or index stays `None`. */
  function AnswerRequest(answer: Option<string>, mfaIndex: Option<string>): Request {
    Request(Post, BaseUrl + "mfa", [FormField("answer", answer), FormField("mfa_index", mfaIndex)])
  }

  /** `answers[question]`: the answer stored for the question, or `undefined`. */
  function Lookup(answers: map<string, string>, question: string): (a: Option<string>)
    ensures a.Some? <==> question in answers
    ensures a.Some? ==> a.value == answers[question]
  {
    if question in answers then Some(answers[question]) else None
  }

  /** `login` with the cookie jar `jar` it creates. Empty credentials reject
      the promise, but the login request is still sent and the code goes on;
      a status other than 302 rejects with InvalidCredentials; a 302 resolves
      with the session, after answering the challenge when the redirect goes
      to the challenge page and that page answers 200. Reading the answer map
      when the caller gave none throws, which fails the step. The answer
      request's own response is not looked at. */
  function LoginRun(host: Host, transport: Transport, creds: Credentials, jar: nat): (r: Run<Session>)
    ensures !r.outcome.Unsettled?
    ensures 1 <= |r.sent| <= 3 && r.sent[0] == LoginRequest(creds)
    ensures r.outcome.Resolved? ==> r.outcome.value == Session(jar)
  {
    var first: Outcome<Session> :=
      if creds.username == "" || creds.password == "" then Rejected(InvalidCredentials) else Unsettled;
    var login := LoginRequest(creds);
    var response := transport(login);
    if response.status != 302 then
      Run(Settle(first, Rejected(InvalidCredentials)), [login])
    else if response.location != Some(MfaLocation) then
      Run(Settle(first, Resolved(Session(jar))), [login])
    else
      var page := transport(ChallengeRequest());
      if page.status != 200 then
        Run(Settle(first, Resolved(Session(jar))), [login, ChallengeRequest()])
      else
        match creds.mfa
        case None => Run(Settle(first, Rejected(InstitutionRequestError)), [login, ChallengeRequest()])
        case Some(answers) =>
          var answer := Lookup(answers, host.challengeQuestion(page.body));
          var submit := AnswerRequest(answer, host.challengeIndex(page.body));
          Run(Settle(first, Resolved(Session(jar))), [login, ChallengeRequest(), submit])
  }

  /** An empty username or password is rejected as InvalidCredentials, and the
      credentials are still posted. */
  lemma EmptyCredentialsRejected(host: Host, transport: Transport, creds: Credentials, jar: nat)
    requires creds.username == "" || creds.password == ""
    ensures LoginRun(host, transport, creds, jar).outcome == Rejected(InvalidCredentials)
    ensures LoginRun(host, transport, creds, jar).sent[0] == LoginRequest(creds)
  {
  }

  /** A login response other than a 302 redirect is InvalidCredentials, and
      nothing else is requested. */
  lemma NonRedirectRejected(host: Host, transport: Transport, creds: Credentials, jar: nat)
    requires transport(LoginRequest(creds)).status != 302
    ensures LoginRun(host, transport, creds, jar) == Run(Rejected(InvalidCredentials), [LoginRequest(creds)])
  {
  }

  /** Login succeeds exactly when both credentials are non-empty, the login is
      redirected, and it is not the case that a challenge page was served to a
      caller without an answer map; the session is the run's cookie jar. */
  lemma LoginSucceeds(host: Host, transport: Transport, creds: Credentials, jar: nat)
    ensures var response := transport(LoginRequest(creds));
      var challenged := response.location == Some(MfaLocation) && transport(ChallengeRequest()).status == 200;
      LoginRun(host, transport, creds, jar).outcome == Resolved(Session(jar)) <==>
        creds.username != "" && creds.password != "" && response.status == 302
        && !(challenged && creds.mfa.None?)
  {
  }

  /** The challenge page is requested exactly when the login is redirected to
      the exact challenge location; the answer is posted exactly when, in
      addition, that page answers 200 and the caller gave an answer map. */
  lemma ChallengeRequests(host: Host, transport: Transport, creds: Credentials, jar: nat)
    ensures var r := LoginRun(host, transport, creds, jar);
      var response := transport(LoginRequest(creds));
      && (|r.sent| >= 2 <==> response.status == 302 && response.location == Some(MfaLocation))
      && (|r.sent| >= 2 ==> r.sent[1] == ChallengeRequest())
      && (|r.sent| == 3 <==>
            response.status == 302 && response.location == Some(MfaLocation)
            && transport(ChallengeRequest()).status == 200 && creds.mfa.Some?)
  {
  }

  /** The posted answer is the one the caller's map gives for the page's
      question (`undefined` when the map has none), sent with the page's
      challenge index. */
  lemma ChallengeAnswer(host: Host, transport: Transport, creds: Credentials, jar: nat)
    requires |LoginRun(host, transport, creds, jar).sent| == 3
    ensures var page := transport(ChallengeRequest());
      var question := host.challengeQuestion(page.body);
      && creds.mfa.Some?
      && LoginRun(host, transport, creds, jar).sent[2] ==
        AnswerRequest(if question in creds.mfa.value then Some(creds.mfa.value[question]) else None,
                      host.challengeIndex(page.body))
  {
  }
}
