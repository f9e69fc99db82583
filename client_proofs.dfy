/** Properties of the client's state machine: each operation's branches one by one, and
    what holds along any sequence of calls a driver can make. */
module ClientProofs {
  import opened Wrappers
  import opened CredsJson
  import opened PortField
  import opened Client

  // ---------------------------------------------------------------- authorize

  /** With an empty store, `authorize` asks for the email and password, succeeds, sends
      nothing and leaves the gateway session as it was. */
  lemma AuthorizeWithoutCredentials(s: ClientState, discovery: Result<Url>, gapLogin: Result<string>, uuid: Result<StatusCode>)
    requires s.creds.None?
    ensures AuthorizeSpec(s, discovery, gapLogin, uuid)
         == Outcome(Ok(()), s.(auth := AuthState.WaitEmailAndPassword), [])
  {
  }

  /** Without a session, a successful discovery and gateway login install the
      discovered url and the returned gateway token, asking for the account's email and
      presenting the stored access token under the stored device id. */
  lemma AuthorizeInstallsSession(s: ClientState, url: Url, gapToken: string, uuid: Result<StatusCode>)
    requires s.creds.Some? && s.gap.None?
    ensures var o := AuthorizeSpec(s, Ok(url), Ok(gapToken), uuid);
            && o.next.gap == Some(GapSession(url, gapToken))
            && o.sent[..2] == [Discovery(s.creds.value.email), GapLogin(url, s.creds.value.deviceId, s.creds.value.token)]
  {
  }

  /** When discovery or the gateway login fails, `authorize` fails and changes nothing:
      the phase is unchanged and there is still no session. */
  lemma AuthorizeResolutionFails(s: ClientState, discovery: Result<Url>, gapLogin: Result<string>, uuid: Result<StatusCode>)
    requires s.creds.Some? && s.gap.None?
    requires discovery.Err? || gapLogin.Err?
    ensures var o := AuthorizeSpec(s, discovery, gapLogin, uuid);
            && o.result == Err(if discovery.Err? then discovery.error else gapLogin.error)
            && o.next == s
            && o.sent == if discovery.Err? then [Discovery(s.creds.value.email)]
                         else [Discovery(s.creds.value.email), GapLogin(discovery.value, s.creds.value.deviceId, s.creds.value.token)]
  {
  }

  /** An existing session is kept and no discovery or gateway login is sent, whatever those
      replies would have been. */
  lemma AuthorizeKeepsSession(s: ClientState, discovery: Result<Url>, gapLogin: Result<string>, uuid: Result<StatusCode>)
    requires s.gap.Some?
    ensures var o := AuthorizeSpec(s, discovery, gapLogin, uuid);
            o.next.gap == s.gap && NoResolution(o.sent)
  {
  }

  /** The session `authorize` works with: the one it had, or the one discovery and the
      gateway login have just given. */
  function SessionAtHand(s: ClientState, discovery: Result<Url>, gapLogin: Result<string>): GapSession
    requires s.gap.Some? || (discovery.Ok? && gapLogin.Ok?)
  {
    if s.gap.Some? then s.gap.value else GapSession(discovery.value, gapLogin.value)
  }

  /** Outside `WaitEmailCode`, once a session is at hand (kept, or just resolved in the
      same call) the uuid check decides the phase: 200 gives `Ready`, 412 `WaitEmailCode`,
      any other status changes only the session and still succeeds; a failed request is
      an error and leaves the phase. The requests are the resolution's, if one was
      needed, then the uuid check under the session at hand. */
  lemma AuthorizeUuidCheck(s: ClientState, discovery: Result<Url>, gapLogin: Result<string>, uuid: Result<StatusCode>)
    requires s.creds.Some? && s.auth != AuthState.WaitEmailCode
    requires s.gap.Some? || (discovery.Ok? && gapLogin.Ok?)
    ensures var o := AuthorizeSpec(s, discovery, gapLogin, uuid);
            var d := s.creds.value;
            var g := SessionAtHand(s, discovery, gapLogin);
            var resolution := if s.gap.Some? then [] else [Discovery(d.email), GapLogin(g.gapUrl, d.deviceId, d.token)];
            && o.sent == resolution + [AuthUuid(g.gapUrl, g.gapToken, d.deviceId)]
            && o.next.gap == Some(g) && o.next.creds == s.creds
            && (uuid == Ok(OK) ==> o.result.Ok? && o.next.auth == AuthState.Ready)
            && (uuid == Ok(PRECONDITION_FAILED) ==> o.result.Ok? && o.next.auth == AuthState.WaitEmailCode)
            && (uuid.Ok? && uuid.value != OK && uuid.value != PRECONDITION_FAILED ==> o.result.Ok? && o.next == s.(gap := Some(g)))
            && (uuid.Err? ==> o.result == Err(uuid.error) && o.next == s.(gap := Some(g)))
  {
  }

  /** The first `authorize` of a run, with a stored record and working gateway: three
      requests, and the uuid check's status alone decides the phase reached. */
  lemma FirstAuthorize(s: ClientState, url: Url, gapToken: string, status: StatusCode)
    requires s.creds.Some? && s.gap.None? && s.auth == AuthState.Unknown
    ensures var o := AuthorizeSpec(s, Ok(url), Ok(gapToken), Ok(status));
            var d := s.creds.value;
            && o.result.Ok?
            && o.sent == [Discovery(d.email), GapLogin(url, d.deviceId, d.token), AuthUuid(url, gapToken, d.deviceId)]
            && o.next.gap == Some(GapSession(url, gapToken))
            && o.next.auth == AfterUuidCheck(AuthState.Unknown, status)
  {
  }

  /** While waiting for the email code, `authorize` never changes the phase and sends no
      uuid check. This needs the invariant: the store cannot be empty in that phase. */
  lemma AuthorizeWhileWaitingForCode(s: ClientState, discovery: Result<Url>, gapLogin: Result<string>, uuid: Result<StatusCode>)
    requires Consistent(s) && s.auth == AuthState.WaitEmailCode
    ensures var o := AuthorizeSpec(s, discovery, gapLogin, uuid);
            o == Outcome(Ok(()), s, [])
  {
  }

  /** `Ready` is not final: a later `authorize` whose uuid check answers 412 goes back to
      waiting for an email code. */
  lemma ReadyCanFallBack(s: ClientState)
    requires Consistent(s) && s.auth == AuthState.Ready
    ensures AuthorizeSpec(s, Err(Transport), Err(Transport), Ok(PRECONDITION_FAILED)).next.auth == AuthState.WaitEmailCode
  {
  }

  // ---------------------------------------------------------------- the other operations

  /** `send_email_code` does nothing unless the client waits for the code; otherwise 200
      makes it ready, and 403 or any other status keep it waiting and still succeed. */
  lemma SendEmailCodeOutcomes(s: ClientState, code: string, approval: Result<StatusCode>)
    requires Consistent(s)
    ensures var o := SendEmailCodeSpec(s, code, approval);
            && (s.auth != AuthState.WaitEmailCode ==> o.next == s && o.sent == [] && o.result == Ok(()))
            && (s.auth == AuthState.WaitEmailCode ==>
                  && o.sent == [Approval(s.gap.value.gapUrl, s.gap.value.gapToken, s.creds.value.deviceId, code)]
                  && (approval == Ok(OK) ==> o.result.Ok? && o.next.auth == AuthState.Ready)
                  && (approval == Ok(FORBIDDEN) ==> o.result.Ok? && o.next.auth == AuthState.WaitEmailCode)
                  && (approval.Ok? && approval.value != OK ==> o.result.Ok? && o.next == s)
                  && (approval.Err? ==> o.result == Err(approval.error) && o.next == s))
  {
  }

  /** Before `Ready`, `fetch_vm_state` answers `Unknown` without a request; once ready it
      reports what the `vm/ip` reply maps to. */
  lemma FetchVmStateOutcomes(s: ClientState, reply: Result<VmIpReply>)
    requires Consistent(s)
    ensures var o := FetchVmStateSpec(s, reply);
            && o.next == s
            && (s.auth != AuthState.Ready ==> o == Outcome(Ok(VirtualMachineState.Unknown), s, []))
            && (s.auth == AuthState.Ready && reply.Ok? ==> o.result == VmStateOf(reply.value.status, reply.value.body))
            && (s.auth == AuthState.Ready && reply.Err? ==> o.result == Err(reply.error))
  {
  }

  /** The worked cases of the `vm/ip` mapping: 473 is `Starting`, a port "abc" is a
      decode error, and a good body is `Up` with the decoded port. */
  lemma VmStateExamples(ip: string, p: u16)
    ensures VmStateOf(473, Ok(IpReply(ip, "80"))) == Ok(VirtualMachineState.Starting)
    ensures VmStateOf(429, Err(Transport)) == Ok(VirtualMachineState.Down)
    ensures VmStateOf(OK, Ok(IpReply(ip, "abc"))) == Err(Decode("not a number"))
    ensures VmStateOf(OK, Ok(IpReply(ip, Decimal(p as nat)))) == Ok(VirtualMachineState.Up(ip, p))
  {
    RejectedPorts();
    ParseDecimalRoundTrip(p);
  }

  // ---------------------------------------------------------------- any sequence of calls

  /** One call a driver can make, with the replies the network gives it. */
  datatype Call =
    | CallAuthorize(discovery: Result<Url>, gapLogin: Result<string>, uuid: Result<StatusCode>)
    | CallSendEmailPassword(deviceId: string, email: string, password: string, login: Result<LoginReply>)
    | CallSendEmailCode(code: string, approval: Result<StatusCode>)
    | CallFetchVmState(reply: Result<VmIpReply>)
    | CallStartVm(startReply: Result<StatusCode>)

  function Apply(s: ClientState, c: Call): (o: Outcome<()>)
    requires Consistent(s)
    ensures Consistent(o.next)
  {
    match c
    case CallAuthorize(discovery, gapLogin, uuid) => AuthorizeSpec(s, discovery, gapLogin, uuid)
    case CallSendEmailPassword(deviceId, email, password, login) => SendEmailPasswordSpec(s, deviceId, email, password, login)
    case CallSendEmailCode(code, approval) => SendEmailCodeSpec(s, code, approval)
    case CallFetchVmState(reply) =>
      var o := FetchVmStateSpec(s, reply);
      Outcome(if o.result.Ok? then Ok(()) else Err(o.result.error), o.next, o.sent)
    case CallStartVm(startReply) => StartVmSpec(s, startReply)
  }

  /** The state after a sequence of calls; whatever a driver does, the invariant holds. */
  function Run(s: ClientState, calls: seq<Call>): (t: ClientState)
    requires Consistent(s)
    ensures Consistent(t)
    decreases |calls|
  {
    if calls == [] then s else Run(Apply(s, calls[0]).next, calls[1..])
  }

  /** Every request a sequence of calls sends, in order. */
  function Sent(s: ClientState, calls: seq<Call>): seq<Request>
    requires Consistent(s)
    decreases |calls|
  {
    if calls == [] then [] else Apply(s, calls[0]).sent + Sent(Apply(s, calls[0]).next, calls[1..])
  }

  predicate NoResolution(reqs: seq<Request>)
  {
    forall i :: 0 <= i < |reqs| ==> !reqs[i].Discovery? && !reqs[i].GapLogin?
  }

  predicate IsLogin(c: Call) { c.CallSendEmailPassword? }

  /** A freshly started client satisfies the invariant, whatever the store loaded. */
  lemma StartIsConsistent(creds: Option<CredsData>)
    ensures Consistent(ClientState(AuthState.Unknown, None, creds))
  {
  }

  /** Once a gateway session exists it is never replaced, by any sequence of calls. */
  lemma {:induction false} SessionNeverOverwritten(s: ClientState, calls: seq<Call>)
    requires Consistent(s) && s.gap.Some?
    ensures Run(s, calls).gap == s.gap
    decreases |calls|
  {
    if calls != [] {
      var next := Apply(s, calls[0]).next;
      assert next.gap == s.gap;
      SessionNeverOverwritten(next, calls[1..]);
    }
  }

  /** Once a gateway session exists, no sequence of calls runs discovery or the gateway
      login again: the handshake happens at most once per run. */
  lemma {:induction false} ResolutionAtMostOnce(s: ClientState, calls: seq<Call>)
    requires Consistent(s) && s.gap.Some?
    ensures NoResolution(Sent(s, calls))
    decreases |calls|
  {
    if calls != [] {
      var o := Apply(s, calls[0]);
      assert NoResolution(o.sent);
      assert o.next.gap == s.gap;
      ResolutionAtMostOnce(o.next, calls[1..]);
      var rest := Sent(o.next, calls[1..]);
      assert Sent(s, calls) == o.sent + rest;
      forall i | 0 <= i < |o.sent + rest|
        ensures !(o.sent + rest)[i].Discovery? && !(o.sent + rest)[i].GapLogin?
      {
        if i >= |o.sent| {
          assert (o.sent + rest)[i] == rest[i - |o.sent|];
        }
      }
    }
  }

  /** Only a successful primary login changes the record: without one, the device id,
      email and tokens stay as they were through any sequence of calls. */
  lemma {:induction false} CredentialsStableWithoutLogin(s: ClientState, calls: seq<Call>)
    requires Consistent(s)
    requires forall i :: 0 <= i < |calls| ==> !IsLogin(calls[i])
    ensures Run(s, calls).creds == s.creds
    decreases |calls|
  {
    if calls != [] {
      assert !IsLogin(calls[0]);
      var next := Apply(s, calls[0]).next;
      assert next.creds == s.creds;
      assert forall i :: 0 <= i < |calls[1..]| ==> calls[1..][i] == calls[i + 1];
      CredentialsStableWithoutLogin(next, calls[1..]);
    }
  }

  /** The first-login journey: with an empty store `authorize` asks for credentials; a
      login as "a@b.com" that returns token "T" and refresh "R" stores exactly
      that record under the new device id; the next `authorize` starts with discovery for
      "a@b.com". */
  lemma FirstLoginJourney(deviceId: string, discovery: Result<Url>, gapLogin: Result<string>, uuid: Result<StatusCode>)
    ensures var s0 := ClientState(AuthState.Unknown, None, None);
            var s1 := AuthorizeSpec(s0, discovery, gapLogin, uuid);
            var s2 := SendEmailPasswordSpec(s1.next, deviceId, "a@b.com", "pw", Ok(LoginReply("R", "T")));
            var s3 := AuthorizeSpec(s2.next, discovery, gapLogin, uuid);
            && s1.next.auth == AuthState.WaitEmailAndPassword && s1.sent == []
            && s2.next.creds == Some(CredsData(deviceId, "a@b.com", "R", "T"))
            && s2.sent == [SsoLogin(deviceId, "a@b.com", "pw")]
            && s3.sent[0] == Discovery("a@b.com")
  {
  }
}
