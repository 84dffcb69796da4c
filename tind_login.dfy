/** The Shibboleth login of checkit/tind.py (`_tind_session` and
    `_tind_request`) as a specification: each round opens a fresh session,
    fetches the login page, asks the access handler for credentials, posts
    them in two SAML steps and looks for the "Forgot your password" text in
    the answer; a rejected login is retried as long as the user confirms.
    After a successful round the SAML form is posted back to TIND.
    Every exchange with the outside is an oracle: the Shibboleth replies
    (indexed by the step and the round), the keyring and the dialog of each
    round, the answers to the retry question, and the outcome of the final
    form post. */
module TindLogin {
  import opened Errors
  import opened PyStr
  import opened Access

  /** One request of the login: the login page, then the two SAML steps
      with the credentials. `round` numbers the fresh session it is made in. */
  datatype ShibStep =
    | LoginPage(round: nat)
    | SamlStep1(round: nat, user: string, pswd: string)
    | SamlStep2(round: nat, user: string, pswd: string)

  /** What `net` gave for a request: whether it reported an error, and the
      response content (as `str(content)` shows it). */
  datatype ShibReply = ShibReply(failed: bool, content: string)

  /** What became of the final SAML form post: the page had no form (or no
      SAMLResponse/RelayState input), `net` raised, or it answered with a
      status code. */
  datatype Handshake = NoForm | PostRaised | Posted(status: int)

  /** How one login round ended. */
  datatype RoundEnd = Aborted(error: ErrorKind) | Rejected | LoggedIn(content: string)

  /** One round: how it ended, the access handler's remembered user and
      password afterwards, and the keyring write it made. */
  datatype RoundResult = RoundResult(end: RoundEnd, user: Option<string>, pswd: Option<string>,
                                     saved: Option<KeyringEntry>)

  /** The whole login loop: the content of the accepted SAML answer or the
      error raised, the number of rounds (sessions) it took, the remembered
      credentials at the end, and every keyring write in order. */
  datatype LoginResult = LoginResult(outcome: Result<string>, rounds: nat, user: Option<string>,
                                     pswd: Option<string>, saved: seq<KeyringEntry>)

  /** The session object `_tind_session` returns: the one made in round
      `round` (counting from 0). */
  datatype Session = Session(round: nat)

  const DialogTitle: string := "Caltech Access"
  const ForgotPassword: string := "Forgot your password"

  /** `_tind_request`: a reply flagged as an error becomes ServiceFailure,
      otherwise the content is returned. */
  function TindRequest(reply: ShibReply): (r: Result<string>)
    ensures r.Err? <==> reply.failed
    ensures r.Err? ==> r.error == ServiceFailure
    ensures r.Ok? ==> r.value == reply.content
  {
    if reply.failed then Err(ServiceFailure) else Ok(reply.content)
  }

  /** The success test `str(content).find('Forgot your password') <= 0`. */
  predicate LoginSucceeded(content: string)
  {
    Find(content, ForgotPassword) <= 0
  }

  /** The test passes when the phrase is absent, and also when the content
      starts with it. */
  lemma LoginSucceededIff(content: string)
    ensures LoginSucceeded(content) <==> !Contains(content, ForgotPassword) || OccursAt(content, ForgotPassword, 0)
  {
  }

  /** `str()` of a bytes value starts with "b'", so the phrase can never be
      at index 0 and the test is exactly "the phrase is absent". */
  lemma {:induction false} BytesReprMakesTestExact(content: string)
    requires StartsWith(content, "b'")
    ensures LoginSucceeded(content) <==> !Contains(content, ForgotPassword)
  {
    assert content[0] == content[..2][0] == 'b';
    assert !OccursAt(content, ForgotPassword, 0) by {
      if |ForgotPassword| <= |content| {
        assert content[..|ForgotPassword|][0] == 'b' != ForgotPassword[0];
      }
    }
    LoginSucceededIff(content);
  }

  /** The credential request of a round: `name_and_password('Caltech Access',
      user, pswd)`, where the loop's `user` and `pswd` are None on every
      call (they start as None and are reset to None before a retry), so
      the remembered values and the keyring decide what the dialog shows. */
  function AskCredentials(storedUser: Option<string>, storedPswd: Option<string>, useKeyring: bool,
                          keyring: Option<string> -> KeyringEntry,
                          dialog: (string, Option<string>, Option<string>) -> DialogAnswer): Resolution
  {
    Resolve(storedUser, storedPswd, useKeyring, DialogTitle, None, None, keyring, dialog)
  }

  /** One pass of the `while not logged_in` loop, from the remembered
      credentials `storedUser`/`storedPswd`. */
  function LoginRound(round: nat, storedUser: Option<string>, storedPswd: Option<string>, useKeyring: bool,
                      shib: ShibStep -> ShibReply,
                      keyring: Option<string> -> KeyringEntry,
                      dialog: (string, Option<string>, Option<string>) -> DialogAnswer): (rr: RoundResult)
    ensures rr.end.Aborted? ==> rr.end.error == ServiceFailure || rr.end.error == UserCancelled
    ensures !rr.end.Aborted? ==> Truthy(rr.user) && Truthy(rr.pswd)
  {
    if shib(LoginPage(round)).failed then
      RoundResult(Aborted(ServiceFailure), storedUser, storedPswd, None)
    else
      var res := AskCredentials(storedUser, storedPswd, useKeyring, keyring, dialog);
      if res.cancelled then
        RoundResult(Aborted(UserCancelled), storedUser, storedPswd, None)
      else if !Truthy(res.user) || !Truthy(res.pswd) then
        RoundResult(Aborted(UserCancelled), res.user, res.pswd, res.saved)
      else
        var u := res.user.value;
        var p := res.pswd.value;
        var step1 := shib(SamlStep1(round, u, p));
        var step2 := shib(SamlStep2(round, u, p));
        if step1.failed || step2.failed then
          RoundResult(Aborted(ServiceFailure), res.user, res.pswd, res.saved)
        else if LoginSucceeded(step2.content) then
          RoundResult(LoggedIn(step2.content), res.user, res.pswd, res.saved)
        else
          RoundResult(Rejected, res.user, res.pswd, res.saved)
  }

  /** The keyring write of a round, as a list of zero or one entries. */
  function Writes(e: Option<KeyringEntry>): (w: seq<KeyringEntry>)
    ensures |w| <= 1
    ensures e.Some? ==> w == [e.value]
    ensures e.None? ==> w == []
  {
    if e.Some? then [e.value] else []
  }

  /** The login loop from round `round` on. A rejected round is retried
      only when `confirms[round]`, the answer to "Incorrect login. Try
      again?", is yes; a round past the end of `confirms` counts as a no.
      The loop runs at least one round, and past round `round` only while
      answers remain; every round before the last was rejected and the user
      agreed to retry (this round here, the later ones by the same clauses of
      the recursive call). */
  function Login(round: nat, storedUser: Option<string>, storedPswd: Option<string>, useKeyring: bool,
                 shib: ShibStep -> ShibReply,
                 keyring: nat -> (Option<string> -> KeyringEntry),
                 dialog: nat -> ((string, Option<string>, Option<string>) -> DialogAnswer),
                 confirms: seq<bool>): (l: LoginResult)
    ensures round < l.rounds <= (if round < |confirms| then |confirms| + 1 else round + 1)
    ensures forall j :: round <= j < l.rounds - 1 ==> j < |confirms| && confirms[j]
    ensures l.rounds > round + 1 ==>
              LoginRound(round, storedUser, storedPswd, useKeyring, shib, keyring(round), dialog(round)).end.Rejected?
    decreases |confirms| - round, 1
  {
    var rr := LoginRound(round, storedUser, storedPswd, useKeyring, shib, keyring(round), dialog(round));
    AfterRound(round, rr, useKeyring, shib, keyring, dialog, confirms)
  }

  /** The loop once round `round` has ended as `rr`: it stops on an abort or
      a successful login, and after a rejection goes on with round + 1 only
      when the user agrees to retry. */
  function AfterRound(round: nat, rr: RoundResult, useKeyring: bool,
                      shib: ShibStep -> ShibReply,
                      keyring: nat -> (Option<string> -> KeyringEntry),
                      dialog: nat -> ((string, Option<string>, Option<string>) -> DialogAnswer),
                      confirms: seq<bool>): (l: LoginResult)
    ensures round < l.rounds <= (if round < |confirms| then |confirms| + 1 else round + 1)
    ensures forall j :: round <= j < l.rounds - 1 ==> j < |confirms| && confirms[j]
    ensures l.rounds > round + 1 ==> rr.end.Rejected?
    decreases |confirms| - round, 0
  {
    var w := Writes(rr.saved);
    match rr.end
    case Aborted(e) => LoginResult(Err(e), round + 1, rr.user, rr.pswd, w)
    case LoggedIn(c) => LoginResult(Ok(c), round + 1, rr.user, rr.pswd, w)
    case Rejected =>
      if round < |confirms| && confirms[round] then
        var rest := Login(round + 1, rr.user, rr.pswd, useKeyring, shib, keyring, dialog, confirms);
        rest.(saved := w + rest.saved)
      else
        LoginResult(Err(UserCancelled), round + 1, rr.user, rr.pswd, w)
  }

  /** One step of the login loop: how `Login` from round `round` follows
      from that round's result. */
  lemma LoginUnfolds(round: nat, storedUser: Option<string>, storedPswd: Option<string>, useKeyring: bool,
                     shib: ShibStep -> ShibReply,
                     keyring: nat -> (Option<string> -> KeyringEntry),
                     dialog: nat -> ((string, Option<string>, Option<string>) -> DialogAnswer),
                     confirms: seq<bool>)
    ensures var rr := LoginRound(round, storedUser, storedPswd, useKeyring, shib, keyring(round), dialog(round));
            var l := Login(round, storedUser, storedPswd, useKeyring, shib, keyring, dialog, confirms);
            var w := Writes(rr.saved);
            && (rr.end.Aborted? ==> l == LoginResult(Err(rr.end.error), round + 1, rr.user, rr.pswd, w))
            && (rr.end.LoggedIn? ==> l == LoginResult(Ok(rr.end.content), round + 1, rr.user, rr.pswd, w))
            && (rr.end.Rejected? && !(round < |confirms| && confirms[round]) ==>
                  l == LoginResult(Err(UserCancelled), round + 1, rr.user, rr.pswd, w))
            && (rr.end.Rejected? && round < |confirms| && confirms[round] ==>
                  var rest := Login(round + 1, rr.user, rr.pswd, useKeyring, shib, keyring, dialog, confirms);
                  l == rest.(saved := w + rest.saved))
  {
  }

  /** The loop's overall result, seen from round `round` with the writes
      `earlier` made so far, once that round has ended as `rr`. */
  lemma LoginContinues(round: nat, storedUser: Option<string>, storedPswd: Option<string>, useKeyring: bool,
                       shib: ShibStep -> ShibReply,
                       keyring: nat -> (Option<string> -> KeyringEntry),
                       dialog: nat -> ((string, Option<string>, Option<string>) -> DialogAnswer),
                       confirms: seq<bool>, rr: RoundResult, total: LoginResult, earlier: seq<KeyringEntry>)
    requires rr == LoginRound(round, storedUser, storedPswd, useKeyring, shib, keyring(round), dialog(round))
    requires var rest := Login(round, storedUser, storedPswd, useKeyring, shib, keyring, dialog, confirms);
             total == rest.(saved := earlier + rest.saved)
    ensures var saved := earlier + Writes(rr.saved);
            && (rr.end.Aborted? ==> total == LoginResult(Err(rr.end.error), round + 1, rr.user, rr.pswd, saved))
            && (rr.end.LoggedIn? ==> total == LoginResult(Ok(rr.end.content), round + 1, rr.user, rr.pswd, saved))
            && (rr.end.Rejected? && !(round < |confirms| && confirms[round]) ==>
                  total == LoginResult(Err(UserCancelled), round + 1, rr.user, rr.pswd, saved))
            && (rr.end.Rejected? && round < |confirms| && confirms[round] ==>
                  var next := Login(round + 1, rr.user, rr.pswd, useKeyring, shib, keyring, dialog, confirms);
                  total == next.(saved := saved + next.saved))
  {
    var rest := Login(round, storedUser, storedPswd, useKeyring, shib, keyring, dialog, confirms);
    LoginUnfolds(round, storedUser, storedPswd, useKeyring, shib, keyring, dialog, confirms);
    if rr.end.Rejected? && round < |confirms| && confirms[round] {
      var next := Login(round + 1, rr.user, rr.pswd, useKeyring, shib, keyring, dialog, confirms);
      SavedShift(total, rest, next, earlier, Writes(rr.saved));
    }
  }

  /** Shifting one round's keyring writes from the rest of the loop to the
      writes made so far. */
  lemma SavedShift(total: LoginResult, rest: LoginResult, next: LoginResult,
                   earlier: seq<KeyringEntry>, w: seq<KeyringEntry>)
    requires total == rest.(saved := earlier + rest.saved)
    requires rest == next.(saved := w + next.saved)
    ensures total == next.(saved := (earlier + w) + next.saved)
  {
    assert earlier + (w + next.saved) == (earlier + w) + next.saved;
  }

  /** The end of `_tind_session` after a successful login: a page without
      the form gives IndexError, a failed post ServiceFailure, and only a
      200 answer returns the session of the last round. */
  function HandshakeResult(h: Handshake, round: nat): (r: Result<Session>)
    ensures r.Ok? <==> h.Posted? && h.status == 200
    ensures r.Ok? ==> r.value == Session(round)
    ensures h.NoForm? ==> r == Err(IndexError)
    ensures h.PostRaised? || (h.Posted? && h.status != 200) ==> r == Err(ServiceFailure)
  {
    match h
    case NoForm => Err(IndexError)
    case PostRaised => Err(ServiceFailure)
    case Posted(status) => if status != 200 then Err(ServiceFailure) else Ok(Session(round))
  }

  /** `_tind_session`: the login loop from round 0, then the form post on
      the accepted content; also the remembered credentials at the end and
      the keyring writes. A session is returned exactly when the login
      succeeded and the form post answered 200, and it is the last
      round's; a login error is raised unchanged. */
  function SessionOutcome(storedUser: Option<string>, storedPswd: Option<string>, useKeyring: bool,
                          shib: ShibStep -> ShibReply,
                          keyring: nat -> (Option<string> -> KeyringEntry),
                          dialog: nat -> ((string, Option<string>, Option<string>) -> DialogAnswer),
                          confirms: seq<bool>, handshake: string -> Handshake)
    : (o: (Result<Session>, Option<string>, Option<string>, seq<KeyringEntry>))
    ensures var l := Login(0, storedUser, storedPswd, useKeyring, shib, keyring, dialog, confirms);
            && (o.0.Ok? <==> l.outcome.Ok? && handshake(l.outcome.value) == Posted(200))
            && (o.0.Ok? ==> o.0.value == Session(l.rounds - 1) && l.rounds <= |confirms| + 1)
            && (l.outcome.Err? ==> o.0 == Err(l.outcome.error))
  {
    var l := Login(0, storedUser, storedPswd, useKeyring, shib, keyring, dialog, confirms);
    var r := if l.outcome.Err? then Err(l.outcome.error) else HandshakeResult(handshake(l.outcome.value), l.rounds - 1);
    (r, l.user, l.pswd, l.saved)
  }

  /** `SessionOutcome` in terms of the whole login loop. */
  lemma SessionOutcomeOf(storedUser: Option<string>, storedPswd: Option<string>, useKeyring: bool,
                         shib: ShibStep -> ShibReply,
                         keyring: nat -> (Option<string> -> KeyringEntry),
                         dialog: nat -> ((string, Option<string>, Option<string>) -> DialogAnswer),
                         confirms: seq<bool>, handshake: string -> Handshake)
    ensures var l := Login(0, storedUser, storedPswd, useKeyring, shib, keyring, dialog, confirms);
            var r := if l.outcome.Err? then Err(l.outcome.error) else HandshakeResult(handshake(l.outcome.value), l.rounds - 1);
            SessionOutcome(storedUser, storedPswd, useKeyring, shib, keyring, dialog, confirms, handshake) == (r, l.user, l.pswd, l.saved)
  {
  }

  // ---------------------------------------------------------------------------
  // Properties of the login loop

  /** Cancelling the dialog ends the login with UserCancelled in that
      round, and the remembered credentials stay as they were. */
  lemma DialogCancelEndsLogin(round: nat, storedUser: Option<string>, storedPswd: Option<string>,
                              useKeyring: bool, shib: ShibStep -> ShibReply,
                              keyring: nat -> (Option<string> -> KeyringEntry),
                              dialog: nat -> ((string, Option<string>, Option<string>) -> DialogAnswer),
                              confirms: seq<bool>)
    requires !shib(LoginPage(round)).failed
    requires AskCredentials(storedUser, storedPswd, useKeyring, keyring(round), dialog(round)).cancelled
    ensures Login(round, storedUser, storedPswd, useKeyring, shib, keyring, dialog, confirms)
            == LoginResult(Err(UserCancelled), round + 1, storedUser, storedPswd, [])
  {
  }

  /** Accepting the dialog with an empty or missing name or password ends
      the login with UserCancelled; those values are remembered, and no
      request carries them. */
  lemma EmptyCredentialsEndLogin(round: nat, storedUser: Option<string>, storedPswd: Option<string>,
                                 useKeyring: bool, shib: ShibStep -> ShibReply,
                                 keyring: nat -> (Option<string> -> KeyringEntry),
                                 dialog: nat -> ((string, Option<string>, Option<string>) -> DialogAnswer),
                                 confirms: seq<bool>)
    requires !shib(LoginPage(round)).failed
    requires var res := AskCredentials(storedUser, storedPswd, useKeyring, keyring(round), dialog(round));
             !res.cancelled && !(Truthy(res.user) && Truthy(res.pswd))
    ensures var res := AskCredentials(storedUser, storedPswd, useKeyring, keyring(round), dialog(round));
            var l := Login(round, storedUser, storedPswd, useKeyring, shib, keyring, dialog, confirms);
            l.outcome == Err(UserCancelled) && l.rounds == round + 1 && l.user == res.user && l.pswd == res.pswd
  {
  }

  /** A failure of any of the three Shibboleth requests ends the login with
      ServiceFailure in that round. */
  lemma StepFailureEndsLogin(round: nat, storedUser: Option<string>, storedPswd: Option<string>,
                             useKeyring: bool, shib: ShibStep -> ShibReply,
                             keyring: nat -> (Option<string> -> KeyringEntry),
                             dialog: nat -> ((string, Option<string>, Option<string>) -> DialogAnswer),
                             confirms: seq<bool>)
    ensures var res := AskCredentials(storedUser, storedPswd, useKeyring, keyring(round), dialog(round));
            var l := Login(round, storedUser, storedPswd, useKeyring, shib, keyring, dialog, confirms);
            var rr := LoginRound(round, storedUser, storedPswd, useKeyring, shib, keyring(round), dialog(round));
            rr.end == Aborted(ServiceFailure) <==>
              (shib(LoginPage(round)).failed
               || (!res.cancelled && Truthy(res.user) && Truthy(res.pswd)
                   && (shib(SamlStep1(round, res.user.value, res.pswd.value)).failed
                       || shib(SamlStep2(round, res.user.value, res.pswd.value)).failed)))
  {
  }

  /** A rejected login that the user does not want to retry ends with
      UserCancelled after that round. */
  lemma DeclinedRetryCancels(round: nat, storedUser: Option<string>, storedPswd: Option<string>,
                             useKeyring: bool, shib: ShibStep -> ShibReply,
                             keyring: nat -> (Option<string> -> KeyringEntry),
                             dialog: nat -> ((string, Option<string>, Option<string>) -> DialogAnswer),
                             confirms: seq<bool>)
    requires LoginRound(round, storedUser, storedPswd, useKeyring, shib, keyring(round), dialog(round)).end == Rejected
    requires !(round < |confirms| && confirms[round])
    ensures var l := Login(round, storedUser, storedPswd, useKeyring, shib, keyring, dialog, confirms);
            l.outcome == Err(UserCancelled) && l.rounds == round + 1
  {
  }

  /** The login succeeds in the round whose second SAML answer passes the
      test, and the content handed on is that answer. */
  lemma LoggedInContent(round: nat, storedUser: Option<string>, storedPswd: Option<string>,
                        useKeyring: bool, shib: ShibStep -> ShibReply,
                        keyring: nat -> (Option<string> -> KeyringEntry),
                        dialog: nat -> ((string, Option<string>, Option<string>) -> DialogAnswer),
                        confirms: seq<bool>)
    ensures var rr := LoginRound(round, storedUser, storedPswd, useKeyring, shib, keyring(round), dialog(round));
            rr.end.LoggedIn? ==>
              var res := AskCredentials(storedUser, storedPswd, useKeyring, keyring(round), dialog(round));
              && Truthy(res.user) && Truthy(res.pswd)
              && rr.end.content == shib(SamlStep2(round, res.user.value, res.pswd.value)).content
              && LoginSucceeded(rr.end.content)
              && Login(round, storedUser, storedPswd, useKeyring, shib, keyring, dialog, confirms).outcome == Ok(rr.end.content)
  {
  }

  /** After a rejected round the remembered credentials are the rejected
      ones, both non-empty, so the next round's request neither looks in
      the keyring nor clears the dialog: it offers the same user name and
      password again, whatever the keyring and dialog of that round. */
  lemma {:induction false} RetryReoffersRejectedCredentials(round: nat, storedUser: Option<string>, storedPswd: Option<string>,
                                                           useKeyring: bool, shib: ShibStep -> ShibReply,
                                                           keyring: Option<string> -> KeyringEntry,
                                                           dialog: (string, Option<string>, Option<string>) -> DialogAnswer,
                                                           nextKeyring: Option<string> -> KeyringEntry,
                                                           nextDialog: (string, Option<string>, Option<string>) -> DialogAnswer)
    requires LoginRound(round, storedUser, storedPswd, useKeyring, shib, keyring, dialog).end == Rejected
    ensures var rr := LoginRound(round, storedUser, storedPswd, useKeyring, shib, keyring, dialog);
            var res := AskCredentials(storedUser, storedPswd, useKeyring, keyring, dialog);
            var next := AskCredentials(rr.user, rr.pswd, useKeyring, nextKeyring, nextDialog);
            && rr.user == res.user && rr.pswd == res.pswd
            && !next.consultedKeyring && next.offeredUser == res.user && next.offeredPswd == res.pswd
  {
    var rr := LoginRound(round, storedUser, storedPswd, useKeyring, shib, keyring, dialog);
    var res := AskCredentials(storedUser, storedPswd, useKeyring, keyring, dialog);
    assert Truthy(rr.user) && Truthy(rr.pswd);
    ExplicitArgumentsOverride(rr.user, rr.pswd, useKeyring, DialogTitle, rr.user, rr.pswd, nextKeyring, nextDialog);
  }
}
