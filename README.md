# Nightmare client: authentication state machine, in Dafny

This project models the core of a small Rust client for a cloud gaming service: the
`ShadowClient` state machine (`src/client.rs`) and the credential store it depends on
(`src/credentials.rs`).

- The client holds three things: an authentication phase (`AuthState`), an at-most-once
  gateway session slot (`Option<GapSession>`), and the store's record slot
  (`Option<CredsData>`).
- `authorize` resolves the gateway session (discovery, then gateway login) and runs the
  device approval check.
- `send_email_password` logs in and saves the record. `send_email_code` submits the email
  confirmation code.
- `fetch_vm_state` and `start_vm` query and start the remote machine once the client is
  `Ready`.

Every network round trip is an argument of the operation, either the reply or the error
it failed with. Every operation also returns the requests it sent, in order. Inputs:
- the discovery url;
- the gateway token;
- the uuid-check and approval statuses;
- the `vm/ip` status and body;
- the `vm/start` status;
- the primary login's `{refresh, token}`.

The newly derived device id is an opaque string argument. The store's file is modelled by
its bytes: the UTF-8 encoding of the text serde writes.

Files and modules:
- `wrappers.dfy` (`Wrappers`): `Option`, `Result` and the two error kinds, transport and
  decode.
- `port_field.dfy` (`PortField`): `u16` and Rust's `u16::from_str`, which the `vm/ip`
  reply's port string goes through.
- `utf8.dfy` (`Utf8`): bytes, the UTF-8 encoding of a text, and the strict decoding that
  reading the file goes through. Also the lemma that decoding undoes encoding.
- `creds_json.dfy` (`CredsJson`): `CredsData`, the compact JSON text serde writes for it
  (`Serialize`), and a reader for that text (`Parse`). Also the round trip between them.
- `credentials.dfy` (`Credentials`): the class `Credentials` with the record slot, the
  file's bytes, the getters, `set_credentials`, `from_file` and `to_file`. Also the
  as-written file overwrite (see Findings).
- `client.dfy` (`Client`):
  - the status mappings;
  - one pure function per operation over `ClientState(auth, gap, creds)` that gives the
    result, the next state and the requests sent;
  - the class `ShadowClient`, whose methods are imperative and are proved equal to those
    functions.
- `client_proofs.dfy` (`ClientProofs`): each operation's branches, and what holds along
  any sequence of calls a driver can make.

The central invariant is `Client.Consistent`: in `WaitEmailCode` or `Ready`, both the
record and the gateway session are present. `ShadowClient.Valid()` is that invariant on
the object. Every method except `AuthorizationState` requires it, every method that
changes state keeps it, and every operation's function preserves it. Under this invariant, the `.value` reads in the method bodies stand for the source's
`unwrap()` calls at `src/client.rs` lines 145, 233, 236, 277 and 280. They are proved safe.

Two behaviours of the code that a reader might not expect, modelled as the code has them:

- `send_email_password` derives a new device id on every call (`src/client.rs:184`), not
  only when none is stored. The model takes that id as an argument and stores it. The
  session already established keeps its old gateway token; the model does not re-run
  discovery for the new id.
- `Ready` is not a final phase. A later `authorize` in `Ready` runs the uuid check again,
  and a 412 moves the client back to `WaitEmailCode` (`ClientProofs.ReadyCanFallBack`).

## Model

| member | source | states |
|---|---|---|
| `PortField.ParseU16` | src/client.rs:289-297 | the port string decodes exactly when it is one optional `+` followed by one or more ASCII digits whose value is below 65536, and then to that value |
| `PortField.ParseDecimalRoundTrip` | src/client.rs:285-297 | every `u16` written in decimal, with or without a leading `+`, decodes back to itself |
| `PortField.LeadingZeros` | src/client.rs:296 | leading zeros are accepted and do not change the decoded value |
| `PortField.RejectedPorts` | src/client.rs:296 | the empty string, a lone `+`, `abc`, `-1` and `65536` do not decode; `65535` does |
| `CredsJson.Serialize` | src/credentials.rs:48 | the compact text `serde_json::to_writer` writes for the record; it has no contract of its own, and what it promises is the round trip `CredsJson.ParseSerialize` |
| `CredsJson.Parse` | src/credentials.rs:29 | the reader for that text; it has no contract of its own, and `CredsJson.ParseSerialize` and `CredsJson.EmptyFileHoldsNothing` state what it accepts |
| `CredsJson.ParseSerialize` | src/credentials.rs:29 | the text written for a record reads back as that record exactly when only whitespace follows it; anything else after it makes the load fail |
| `CredsJson.SerializeRoundTrip` | src/credentials.rs:48 | a saved record is read back by the next load unchanged |
| `CredsJson.EmptyFileHoldsNothing` | src/credentials.rs:23-28 | the empty file that opening with `create` produces holds no record |
| `Credentials.Load` | src/credentials.rs:29 | `serde_json::from_reader` on the file's bytes, UTF-8 decoding then `Parse`; it has no contract of its own, and `Credentials.WrittenRecordLoads`, `Credentials.LoadRecordThen` and `Credentials.OverwriteReload` state what it loads |
| `Credentials.LoadRecordThen` | src/credentials.rs:29 | a record's bytes followed by more bytes load as the record exactly when every one of those bytes is whitespace, and as no record otherwise |
| `Utf8.DecodeAppend` | src/credentials.rs:29 | decoding the encoding of a text followed by more bytes gives the text followed by the decoding of those bytes, and fails exactly when their decoding fails |
| `Utf8.DecodeEncode` | src/credentials.rs:29 | every text decodes back from its UTF-8 encoding |
| `Credentials.WrittenRecordLoads` | src/credentials.rs:29 | the bytes written for a record, alone in the file, load back as that record |
| `Credentials.WhitespaceBytes` | src/credentials.rs:29 | bytes after the value are accepted exactly when each of them is a space, tab, line feed or carriage return; a stray UTF-8 byte is refused like any other character |
| `Credentials.Credentials.FromFile` | src/credentials.rs:22-38 | the store holds what the file's bytes load as (UTF-8 decoding, then the text's parse); bytes that do not load give an empty store, with all four getters `None` |
| `Credentials.Credentials.SetCredentials` | src/credentials.rs:69-85 | afterwards the getters return the four arguments, each its own (token and refresh not swapped); the new record depends on the arguments only, so nothing of the old one survives; the file is untouched |
| `Credentials.Credentials.ToFile` | src/credentials.rs:40-51 | an empty store leaves the file as it was; otherwise the file holds exactly the UTF-8 bytes of the record's text and loads back as the record |
| `Credentials.Credentials.DeviceId` | src/credentials.rs:53-55 | the stored device id, `None` for an empty store; no contract of its own, stated by `Credentials.GettersProjectRecord` |
| `Credentials.Credentials.Email` | src/credentials.rs:57-59 | the stored email; no contract of its own, stated by `Credentials.GettersProjectRecord` |
| `Credentials.Credentials.Token` | src/credentials.rs:61-63 | the stored access token; no contract of its own, stated by `Credentials.GettersProjectRecord` |
| `Credentials.Credentials.Refresh` | src/credentials.rs:65-67 | the stored refresh token; no contract of its own, stated by `Credentials.GettersProjectRecord` |
| `Credentials.GettersAllOrNothing` | src/credentials.rs:53-67 | the four getters are either all `None` or all `Some`, exactly as the record slot is empty or not |
| `Credentials.GettersProjectRecord` | src/credentials.rs:53-67 | the four getter values are the four fields of one and the same record |
| `Credentials.OverwriteFromStart` | src/credentials.rs:44-48 | opening for write without truncation leaves the written bytes followed by whatever of the older file's bytes lies beyond their length |
| `Credentials.OverwriteReload` | src/credentials.rs:44-48 | after such a write the record loads back exactly when every byte left over from the older file is a whitespace byte |
| `Credentials.OverwriteLosesShorterRecord` | src/credentials.rs:44-48 | over a file holding a record whose token is one character longer, the written record loads back as no record at all |
| `Credentials.OverwriteCountsBytes` | src/credentials.rs:44-48 | the leftover is measured in bytes: a record whose token ends in `a`, written over one whose token ends in `é` instead, has the same length in characters, yet loads back as no record |
| `Client.AfterUuidCheck` | src/client.rs:162-173 | 200 gives `Ready`, 412 gives `WaitEmailCode`, every other status leaves the phase |
| `Client.AfterApproval` | src/client.rs:254-265 | 200 gives `Ready`, 403 gives `WaitEmailCode`, every other status leaves the phase |
| `Client.VmStateOf` | src/client.rs:312-323 | 429, 470, 471 and 472 exactly give `Down`; 473 exactly gives `Starting`; every status outside 200 and those gives `Unknown`; 200 gives `Up` with the body's ip and decoded port, and is an error exactly when the body does not decode or its port is not a number |
| `Client.ResolveSession` | src/client.rs:89-140 | a present session is returned without any request; otherwise discovery for the account's email is sent first, and the result is a session exactly when discovery and gateway login both succeed, namely the discovered url with the returned token |
| `Client.AuthorizeSpec` | src/client.rs:79-177 | `authorize` keeps the invariant, never changes the record, never replaces a present session, and when a record exists and it succeeds, a session is present |
| `Client.SendEmailPasswordSpec` | src/client.rs:179-223 | one login request with the device id, email and password; on success the record becomes the new device id, the email and the returned refresh and token; on failure nothing changes; phase and session never change |
| `Client.SendEmailCodeSpec` | src/client.rs:225-269 | outside `WaitEmailCode` nothing happens and nothing is sent; record and session never change; the only phase change possible is to `Ready` |
| `Client.FetchVmStateSpec` | src/client.rs:271-326 | the state never changes; outside `Ready` the answer is `Unknown` with no request; in `Ready` exactly one `vm/ip` request with the session's url and token and the stored device id |
| `Client.StartVmSpec` | src/client.rs:328-358 | the state never changes; outside `Ready` nothing is sent; in `Ready` exactly one `vm/start` request, failing only if that request fails |
| `Client.ShadowClient.FromPath` | src/client.rs:56-73 | a new client has phase `Unknown`, no session, and the record the file's bytes load as |
| `Client.ShadowClient.AuthorizationState` | src/client.rs:75-77 | returns the current phase and changes nothing |
| `Client.ShadowClient.Authorize` | src/client.rs:79-177 | the result, the new phase and session, and the requests sent are those `AuthorizeSpec` gives for the old state; the invariant is kept; the store is not modified |
| `Client.ShadowClient.SendEmailPassword` | src/client.rs:179-223 | as `SendEmailPasswordSpec`; after a successful login the file holds the new record's bytes and loads back as it; after a failed one the file is untouched |
| `Client.ShadowClient.SendEmailCode` | src/client.rs:225-269 | as `SendEmailCodeSpec`, keeping the invariant, modifying the phase only |
| `Client.ShadowClient.FetchVmState` | src/client.rs:271-326 | returns what `FetchVmStateSpec` gives and modifies nothing |
| `Client.ShadowClient.StartVm` | src/client.rs:328-358 | returns what `StartVmSpec` gives and modifies nothing |
| `ClientProofs.AuthorizeWithoutCredentials` | src/client.rs:82-86 | with an empty store: `WaitEmailAndPassword`, `Ok`, no request, session untouched |
| `ClientProofs.AuthorizeInstallsSession` | src/client.rs:89-140 | without a session, successful discovery and login install `{discovered url, returned token}`, after a discovery for the email and a gateway login with the stored device id and access token |
| `ClientProofs.AuthorizeResolutionFails` | src/client.rs:99-135 | a failed discovery or gateway login is returned as the error, with the phase unchanged and still no session |
| `ClientProofs.AuthorizeKeepsSession` | src/client.rs:89 | with a session present, it is kept and no discovery or gateway login is sent |
| `ClientProofs.AuthorizeUuidCheck` | src/client.rs:89-173 | outside `WaitEmailCode`, with a record and a session at hand (kept, or just resolved by discovery and gateway login in the same call): the requests are the resolution's, if one was needed, then one uuid check under that session; 200 gives `Ready`, 412 `WaitEmailCode`, any other status returns `Ok` and changes nothing but installing the session, a failed request returns its error |
| `ClientProofs.FirstAuthorize` | src/client.rs:89-173 | the first `authorize` of a run with a stored record sends discovery, gateway login and the uuid check in that order, installs the session, and the uuid status alone decides the phase reached |
| `ClientProofs.AuthorizeWhileWaitingForCode` | src/client.rs:143 | in `WaitEmailCode`, `authorize` returns `Ok`, changes nothing and sends nothing |
| `ClientProofs.ReadyCanFallBack` | src/client.rs:143-170 | from `Ready`, a uuid check answering 412 returns the client to `WaitEmailCode` |
| `ClientProofs.SendEmailCodeOutcomes` | src/client.rs:225-265 | outside `WaitEmailCode` nothing happens; in it one approval request with the code is sent, 200 gives `Ready`, 403 or any other status keeps `WaitEmailCode` and returns `Ok`, a failed request returns its error |
| `ClientProofs.FetchVmStateOutcomes` | src/client.rs:271-325 | outside `Ready` the answer is `Ok(Unknown)` with nothing sent; in `Ready` the answer is the `vm/ip` mapping of the reply, or the request's error |
| `ClientProofs.VmStateExamples` | src/client.rs:312-323 | 473 gives `Starting`, 429 gives `Down`, a port `abc` gives the decode error, a decimal port gives `Up` with that port |
| `ClientProofs.Apply` | src/client.rs:79-358 | every operation preserves the invariant |
| `ClientProofs.Run` | src/main.rs:12-51 | after any sequence of calls by a driver, the invariant holds |
| `ClientProofs.StartIsConsistent` | src/client.rs:61-66 | the state a new client starts in satisfies the invariant, whatever the store loaded |
| `ClientProofs.SessionNeverOverwritten` | src/client.rs:138-139 | once a session exists, no sequence of calls replaces it |
| `ClientProofs.ResolutionAtMostOnce` | src/client.rs:89-140 | once a session exists, no sequence of calls sends discovery or gateway login again |
| `ClientProofs.CredentialsStableWithoutLogin` | src/client.rs:211-212 | without a primary login, no sequence of calls changes the record, so the device id stays the same |
| `ClientProofs.FirstLoginJourney` | src/main.rs:13-34 | from an empty store: `authorize` asks for credentials without a request; a login as `a@b.com` returning token `T` and refresh `R` stores exactly that record; the next `authorize` first sends a discovery for `a@b.com` |

## Findings

| source | as written | input that shows it | evidently intended | confidence | as-written member | corrected member |
|---|---|---|---|---|---|---|
| src/credentials.rs:44-48 | `to_file` opens `creds.json` with `write(true)` and no truncation, then writes the record from offset 0 | the file holds a record whose token is one character longer than the new one, so the old closing `}` stays after the new record; `serde_json::from_reader` rejects trailing characters, so the next `from_file` gives an empty store and the user must log in again; the same happens whenever what is left of the older file past the new record's bytes is not whitespace. The overwrite counts bytes: writing a record whose token ends in `a` over one whose token ends in `é` instead reaches the same state, although both texts have the same length in characters | the file holds exactly the new record and the next run loads it | not executed | `Credentials.OverwriteLosesShorterRecord` | `Credentials.Credentials.ToFile` |

The rest of the model uses the truncating write. `Credentials.OverwriteFromStart` and
`Credentials.OverwriteReload` describe the write as the source does it.

## Left out

- `src/device_info.rs` is not part of this model. It reads host attributes through
  `sys_info`, reads the wall clock, and hashes with SHA3-256. The device id is an opaque
  argument of `SendEmailPassword`. A `sys_info` failure, which panics in
  `DeviceInfo::default`, is not modelled.
- `src/main.rs`, the stdin-driven loop, is not modelled. `ClientProofs.Run` stands for any
  driver, and retry policy belongs to that driver.
- HTTP transport (reqwest), URL handling and JSON decoding of replies are not modelled.
  Each reply is an argument: a `Result` for a request that fails to send or to decode,
  otherwise its status (100 to 999) and the already decoded fields. Routes are the
  constructors of `Client.Request`, not urls built with `Url::set_path`. The fixed hosts
  are not represented.
- `Arc`/`Mutex` locking and async suspension are not modelled. The model has one driver
  and treats each lock as a plain field.
- `println!` logging is not modelled, including the unwraps inside the log line at
  `src/client.rs:218-219`. Those unwraps are safe, since the record was just set.
- File I/O is not modelled: `create_dir_all`, the config path, the file name, and the
  panics when the file cannot be opened. The file is its bytes, and a missing file is the
  empty file that `create(true)` produces.
- `CredsJson.Parse` reads only the layout serde writes: the four fields in declaration
  order, with whitespace allowed around every token. Some files that `serde_json` would
  accept load as empty in the model:
  - fields in another order;
  - unknown extra fields;
  - the record written as a JSON array of the four strings, which serde's derived
    `Deserialize` also accepts;
  - `\u` escapes that form a surrogate pair.
- The credential getters are functions, so "they do not modify the record" holds by
  construction. No lemma states it.
