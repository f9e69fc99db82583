/** `ShadowClient`: the authentication phase, the per-run gateway session and the
    credential store, and the operations that move them. Every network round trip is an
    argument (the reply it got, or the error it failed with), and every operation returns
    the requests it sent, in order, so that "no request" can be stated. */
module Client {
  import opened Wrappers
  import opened PortField
  import opened CredsJson
  import opened Utf8
  import Credentials

  type Url = string

  /** An HTTP status as reqwest represents it: three digits. */
  newtype StatusCode = x: int | 100 <= x < 1000 witness 200

  const OK: StatusCode := 200
  const FORBIDDEN: StatusCode := 403
  const PRECONDITION_FAILED: StatusCode := 412

  datatype VirtualMachineState = Unknown | Down | Starting | Up(ip: string, port: u16)

  datatype AuthState = Unknown | WaitEmailAndPassword | WaitEmailCode | Ready

  datatype GapSession = GapSession(gapUrl: Url, gapToken: string)

  /** The requests the client sends. Every gateway request after the login carries the
      gateway token (`Authorization: Token …`) and the device id (`X-Shadow-Uuid`). */
  datatype Request =
    | Discovery(email: string)                                      // GET tinag ?email=…&fmt=json
    | GapLogin(gapUrl: Url, deviceId: string, token: string)        // POST shadow/auth_login
    | AuthUuid(gapUrl: Url, gapToken: string, deviceId: string)     // GET shadow/auth_uuid
    | Approval(gapUrl: Url, gapToken: string, deviceId: string, code: string)  // GET shadow/client/approval?code=…
    | VmIp(gapUrl: Url, gapToken: string, deviceId: string)         // GET shadow/vm/ip
    | VmStart(gapUrl: Url, gapToken: string, deviceId: string)      // GET shadow/vm/start
    | SsoLogin(deviceId: string, email: string, password: string)   // POST sso/auth/login

  /** The body of a successful primary login. */
  datatype LoginReply = LoginReply(refresh: string, token: string)

  /** The body of a `vm/ip` reply before its port string is decoded. */
  datatype IpReply = IpReply(ip: string, port: string)

  /** A `vm/ip` reply: its status, and its body if it is an `{ip, port}` object of strings. */
  datatype VmIpReply = VmIpReply(status: StatusCode, body: Result<IpReply>)

  // ---------------------------------------------------------------- status mappings

  /** The device approval check (`auth_uuid`): 200 means no email confirmation is
      needed, 412 means one is; any other status is logged and changes nothing. */
  function AfterUuidCheck(auth: AuthState, status: StatusCode): (r: AuthState)
    ensures status == OK ==> r == AuthState.Ready
    ensures status == PRECONDITION_FAILED ==> r == AuthState.WaitEmailCode
    ensures status != OK && status != PRECONDITION_FAILED ==> r == auth
  {
    if status == OK then AuthState.Ready
    else if status == PRECONDITION_FAILED then AuthState.WaitEmailCode
    else auth
  }

  /** The email code submission (`client/approval`): 200 accepts the code, 403 rejects
      it and keeps waiting; any other status is logged and changes nothing. */
  function AfterApproval(auth: AuthState, status: StatusCode): (r: AuthState)
    ensures status == OK ==> r == AuthState.Ready
    ensures status == FORBIDDEN ==> r == AuthState.WaitEmailCode
    ensures status != OK && status != FORBIDDEN ==> r == auth
  {
    if status == OK then AuthState.Ready
    else if status == FORBIDDEN then AuthState.WaitEmailCode
    else auth
  }

  /** The `vm/ip` status mapping. Only a 200 reads the body, and a body whose port does
      not decode is an error, never `Unknown`. */
  function VmStateOf(status: StatusCode, body: Result<IpReply>): (r: Result<VirtualMachineState>)
    ensures r.Err? <==> status == OK && (body.Err? || ParseU16(body.value.port).None?)
    ensures status == OK && body.Err? ==> r == Err(body.error)
    ensures status == OK && body.Ok? && ParseU16(body.value.port).None? ==> r == Err(Decode("not a number"))
    ensures (r.Ok? && r.value.Up?) <==> status == OK && body.Ok? && ParseU16(body.value.port).Some?
    ensures r.Ok? && r.value.Up? ==> r.value.ip == body.value.ip && ParseU16(body.value.port) == Some(r.value.port)
    ensures r == Ok(VirtualMachineState.Down) <==> status in {429, 470, 471, 472}
    ensures r == Ok(VirtualMachineState.Starting) <==> status == 473
    ensures r == Ok(VirtualMachineState.Unknown) <==> status !in {200, 429, 470, 471, 472, 473}
  {
    if status == OK then
      match body
      case Err(e) => Err(e)
      case Ok(b) =>
        match ParseU16(b.port)
        case None => Err(Decode("not a number"))
        case Some(p) => Ok(VirtualMachineState.Up(b.ip, p))
    else if status == 429 || status == 470 || status == 471 || status == 472 then Ok(VirtualMachineState.Down)
    else if status == 473 then Ok(VirtualMachineState.Starting)
    else Ok(VirtualMachineState.Unknown)
  }

  // ---------------------------------------------------------------- the state machine as values

  /** What the client holds: the phase, the gateway session slot and the credential slot. */
  datatype ClientState = ClientState(auth: AuthState, gap: Option<GapSession>, creds: Option<CredsData>)

  /** Waiting for the email code, or ready, only with a record and a gateway session:
      what makes the `unwrap()`s of the gateway session and the device id safe. */
  predicate Consistent(s: ClientState)
  {
    (s.auth == AuthState.WaitEmailCode || s.auth == AuthState.Ready) ==> s.creds.Some? && s.gap.Some?
  }

  /** What one operation returns, the state it leaves, and the requests it sent. */
  datatype Outcome<T> = Outcome(result: Result<T>, next: ClientState, sent: seq<Request>)

  datatype Resolution = Resolution(session: Result<GapSession>, sent: seq<Request>)

  /** Discovery then gateway login, skipped entirely when a session already exists. */
  function ResolveSession(gap: Option<GapSession>, d: CredsData, discovery: Result<Url>, gapLogin: Result<string>): (r: Resolution)
    ensures gap.Some? ==> r == Resolution(Ok(gap.value), [])
    ensures gap.None? ==> |r.sent| > 0 && r.sent[0] == Discovery(d.email)
    ensures gap.None? ==> (r.session.Ok? <==> discovery.Ok? && gapLogin.Ok?)
    ensures gap.None? && discovery.Err? ==> r == Resolution(Err(discovery.error), [Discovery(d.email)])
    ensures gap.None? && discovery.Ok? && gapLogin.Err? ==>
              r == Resolution(Err(gapLogin.error), [Discovery(d.email), GapLogin(discovery.value, d.deviceId, d.token)])
    ensures gap.None? && r.session.Ok? ==>
              && r.session.value == GapSession(discovery.value, gapLogin.value)
              && r.sent == [Discovery(d.email), GapLogin(discovery.value, d.deviceId, d.token)]
  {
    if gap.Some? then Resolution(Ok(gap.value), [])
    else
      match discovery
      case Err(e) => Resolution(Err(e), [Discovery(d.email)])
      case Ok(gapUrl) =>
        var sent := [Discovery(d.email), GapLogin(gapUrl, d.deviceId, d.token)];
        match gapLogin
        case Err(e) => Resolution(Err(e), sent)
        case Ok(gapToken) => Resolution(Ok(GapSession(gapUrl, gapToken)), sent)
  }

  /** `authorize`. It never touches the credentials, never replaces a session that
      exists, and keeps the invariant. */
  function AuthorizeSpec(s: ClientState, discovery: Result<Url>, gapLogin: Result<string>, uuid: Result<StatusCode>): (o: Outcome<()>)
    ensures Consistent(s) ==> Consistent(o.next)
    ensures o.next.creds == s.creds
    ensures s.gap.Some? ==> o.next.gap == s.gap
    ensures s.creds.Some? && o.result.Ok? ==> o.next.gap.Some?
  {
    if s.creds.None? then Outcome(Ok(()), s.(auth := AuthState.WaitEmailAndPassword), [])
    else
      var d := s.creds.value;
      var res := ResolveSession(s.gap, d, discovery, gapLogin);
      match res.session
      case Err(e) => Outcome(Err(e), s, res.sent)
      case Ok(g) =>
        var s1 := s.(gap := Some(g));
        if s.auth == AuthState.WaitEmailCode then Outcome(Ok(()), s1, res.sent)
        else
          var sent := res.sent + [AuthUuid(g.gapUrl, g.gapToken, d.deviceId)];
          match uuid
          case Err(e) => Outcome(Err(e), s1, sent)
          case Ok(status) => Outcome(Ok(()), s1.(auth := AfterUuidCheck(s.auth, status)), sent)
  }

  /** `send_email_password`: a successful login replaces the record with the new device
      id, the email and the returned tokens; the phase and the session stay as they are. */
  function SendEmailPasswordSpec(s: ClientState, deviceId: string, email: string, password: string,
                                 login: Result<LoginReply>): (o: Outcome<()>)
    ensures Consistent(s) ==> Consistent(o.next)
    ensures o.next.auth == s.auth && o.next.gap == s.gap
    ensures o.sent == [SsoLogin(deviceId, email, password)]
    ensures o.result.Ok? <==> login.Ok?
    ensures login.Err? ==> o.result == Err(login.error)
    ensures login.Ok? ==> o.next.creds == Some(CredsData(deviceId, email, login.value.refresh, login.value.token))
    ensures login.Err? ==> o.next == s
  {
    var sent := [SsoLogin(deviceId, email, password)];
    match login
    case Err(e) => Outcome(Err(e), s, sent)
    case Ok(reply) => Outcome(Ok(()), s.(creds := Some(CredsData(deviceId, email, reply.refresh, reply.token))), sent)
  }

  /** `send_email_code`: nothing at all unless the client waits for the code. */
  function SendEmailCodeSpec(s: ClientState, code: string, approval: Result<StatusCode>): (o: Outcome<()>)
    requires Consistent(s)
    ensures Consistent(o.next)
    ensures o.next.creds == s.creds && o.next.gap == s.gap
    ensures s.auth != AuthState.WaitEmailCode ==> o == Outcome(Ok(()), s, [])
    ensures o.next.auth != s.auth ==> o.next.auth == AuthState.Ready
  {
    if s.auth != AuthState.WaitEmailCode then Outcome(Ok(()), s, [])
    else
      var g := s.gap.value;
      var sent := [Approval(g.gapUrl, g.gapToken, s.creds.value.deviceId, code)];
      match approval
      case Err(e) => Outcome(Err(e), s, sent)
      case Ok(status) => Outcome(Ok(()), s.(auth := AfterApproval(s.auth, status)), sent)
  }

  /** `fetch_vm_state`: `Unknown` without a request unless ready; never changes state. */
  function FetchVmStateSpec(s: ClientState, reply: Result<VmIpReply>): (o: Outcome<VirtualMachineState>)
    requires Consistent(s)
    ensures o.next == s
    ensures s.auth != AuthState.Ready ==> o.result == Ok(VirtualMachineState.Unknown) && o.sent == []
    ensures s.auth == AuthState.Ready ==>
              o.sent == [VmIp(s.gap.value.gapUrl, s.gap.value.gapToken, s.creds.value.deviceId)]
  {
    if s.auth != AuthState.Ready then Outcome(Ok(VirtualMachineState.Unknown), s, [])
    else
      var g := s.gap.value;
      var sent := [VmIp(g.gapUrl, g.gapToken, s.creds.value.deviceId)];
      match reply
      case Err(e) => Outcome(Err(e), s, sent)
      case Ok(r) => Outcome(VmStateOf(r.status, r.body), s, sent)
  }

  /** `start_vm`: no request unless ready; the status of the reply is only logged. */
  function StartVmSpec(s: ClientState, reply: Result<StatusCode>): (o: Outcome<()>)
    requires Consistent(s)
    ensures o.next == s
    ensures s.auth != AuthState.Ready ==> o.result == Ok(()) && o.sent == []
    ensures s.auth == AuthState.Ready ==>
              o.sent == [VmStart(s.gap.value.gapUrl, s.gap.value.gapToken, s.creds.value.deviceId)]
              && (o.result.Err? <==> reply.Err?)
              && (reply.Err? ==> o.result == Err(reply.error))
  {
    if s.auth != AuthState.Ready then Outcome(Ok(()), s, [])
    else
      var g := s.gap.value;
      var sent := [VmStart(g.gapUrl, g.gapToken, s.creds.value.deviceId)];
      match reply
      case Err(e) => Outcome(Err(e), s, sent)
      case Ok(_) => Outcome(Ok(()), s, sent)
  }

  // ---------------------------------------------------------------- the client object

  class ShadowClient {
    const creds: Credentials.Credentials
    var authState: AuthState
    var gapSession: Option<GapSession>

    function State(): ClientState
      reads this, creds
    {
      ClientState(authState, gapSession, creds.data)
    }

    ghost predicate Valid()
      reads this, creds
    {
      Consistent(State())
    }

    /** `from_path`: the store is loaded from the bytes of `creds.json`; the phase is
        `Unknown` and there is no gateway session yet. */
    constructor FromPath(credsFile: seq<byte>)
      ensures Valid() && fresh(creds)
      ensures State() == ClientState(AuthState.Unknown, None, Credentials.Load(credsFile))
      ensures creds.file == credsFile
    {
      creds := new Credentials.Credentials.FromFile(credsFile);
      authState := AuthState.Unknown;
      gapSession := None;
    }

    /** `authorization_state`: a read of the phase. */
    method AuthorizationState() returns (state: AuthState)
      ensures state == authState
    {
      state := authState;
    }

    method Authorize(discovery: Result<Url>, gapLogin: Result<string>, uuid: Result<StatusCode>)
      returns (r: Result<()>, sent: seq<Request>)
      requires Valid()
      modifies this
      ensures Valid()
      ensures var o := AuthorizeSpec(old(State()), discovery, gapLogin, uuid);
              r == o.result && State() == o.next && sent == o.sent
    {
      sent := [];
      var deviceId := creds.DeviceId();
      if deviceId.None? {
        authState := AuthState.WaitEmailAndPassword;
        return Ok(()), sent;
      }

      if gapSession.None? {
        var email := creds.Email().value;
        var token := creds.Token().value;
        sent := sent + [Discovery(email)];
        if discovery.Err? {
          return Err(discovery.error), sent;
        }
        var gapUrl := discovery.value;
        sent := sent + [GapLogin(gapUrl, deviceId.value, token)];
        if gapLogin.Err? {
          return Err(gapLogin.error), sent;
        }
        gapSession := Some(GapSession(gapUrl, gapLogin.value));
      }

      if authState != AuthState.WaitEmailCode {
        var session := gapSession.value;
        sent := sent + [AuthUuid(session.gapUrl, session.gapToken, deviceId.value)];
        if uuid.Err? {
          return Err(uuid.error), sent;
        }
        var status := uuid.value;
        if status == OK {
          authState := AuthState.Ready;
        } else if status == PRECONDITION_FAILED {
          authState := AuthState.WaitEmailCode;
        }
      }
      r := Ok(());
    }

    /** The stored record afterwards is also what `creds.json` holds. */
    method SendEmailPassword(deviceId: string, email: string, password: string, login: Result<LoginReply>)
      returns (r: Result<()>, sent: seq<Request>)
      requires Valid()
      modifies creds
      ensures Valid()
      ensures var o := SendEmailPasswordSpec(old(State()), deviceId, email, password, login);
              r == o.result && State() == o.next && sent == o.sent
      ensures r.Ok? ==> creds.file == Encode(Serialize(creds.data.value)) && Credentials.Load(creds.file) == creds.data
      ensures r.Err? ==> creds.file == old(creds.file)
    {
      sent := [SsoLogin(deviceId, email, password)];
      if login.Err? {
        return Err(login.error), sent;
      }
      var reply := login.value;
      creds.SetCredentials(deviceId, email, reply.token, reply.refresh);
      creds.ToFile();
      r := Ok(());
      assert creds.data == Some(CredsData(deviceId, email, reply.refresh, reply.token));
    }

    method SendEmailCode(code: string, approval: Result<StatusCode>) returns (r: Result<()>, sent: seq<Request>)
      requires Valid()
      modifies this`authState
      ensures Valid()
      ensures var o := SendEmailCodeSpec(old(State()), code, approval);
              r == o.result && State() == o.next && sent == o.sent
    {
      var state := AuthorizationState();
      if state != AuthState.WaitEmailCode {
        return Ok(()), [];
      }
      var session := gapSession.value;
      var deviceId := creds.DeviceId().value;
      sent := [Approval(session.gapUrl, session.gapToken, deviceId, code)];
      if approval.Err? {
        return Err(approval.error), sent;
      }
      var status := approval.value;
      if status == OK {
        authState := AuthState.Ready;
      } else if status == FORBIDDEN {
        authState := AuthState.WaitEmailCode;
      }
      r := Ok(());
    }

    method FetchVmState(reply: Result<VmIpReply>) returns (r: Result<VirtualMachineState>, sent: seq<Request>)
      requires Valid()
      ensures var o := FetchVmStateSpec(State(), reply); r == o.result && sent == o.sent
    {
      var state := AuthorizationState();
      if state != AuthState.Ready {
        return Ok(VirtualMachineState.Unknown), [];
      }
      var session := gapSession.value;
      var deviceId := creds.DeviceId().value;
      sent := [VmIp(session.gapUrl, session.gapToken, deviceId)];
      if reply.Err? {
        return Err(reply.error), sent;
      }
      r := VmStateOf(reply.value.status, reply.value.body);
    }

    method StartVm(reply: Result<StatusCode>) returns (r: Result<()>, sent: seq<Request>)
      requires Valid()
      ensures var o := StartVmSpec(State(), reply); r == o.result && sent == o.sent
    {
      var state := AuthorizationState();
      if state != AuthState.Ready {
        return Ok(()), [];
      }
      var session := gapSession.value;
      var deviceId := creds.DeviceId().value;
      sent := [VmStart(session.gapUrl, session.gapToken, deviceId)];
      if reply.Err? {
        return Err(reply.error), sent;
      }
      r := Ok(());
    }
  }
}
