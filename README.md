# Assistant setup and session core, in Dafny

This project models the decision logic of a small desktop client for a cloud
speech assistant. The client sends a text command over the streaming
`Assist` RPC and plays back the spoken answer. A one-time setup must come
first: it generates the protocol-buffer modules and registers a device
identity with an OAuth2 credential. The model covers four parts:

- **Setup state machine** (`app.dfy`, module `App`, class `AssistantGui`).
  It tracks whether the five required files exist. It runs an ordered setup
  wizard that stops at the first failure, and it holds the session fields
  `setupStatus`, `setupComplete` and `assistant`. Resetting the registration
  deletes the token and the device configuration.
- **Device registration** (`register_device.dfy`, module `RegisterDevice`).
  The project id comes from the client secret, and the two device ids are
  derived from it. Authentication loads the saved token, then refreshes it
  or asks for consent, then persists the result.
- **Assist session** (`assistant_client.dfy`, module `Assistant`, class
  `AssistantClient`). The client needs a device configuration to start. It
  authenticates (it never refreshes) and sends one fixed request. It joins
  the audio chunks of the replies in arrival order and reports success
  exactly when there was audio. The interactive loop ends at `exit`.
- **Generated-file relocation** (`generate_protos.dfy`, module
  `GenerateProtos`). The schema is written to a fixed path and compiled by
  protoc. The generated `_pb2` modules are then moved out of the package
  directory. The pipeline stops at the first failing step.

Shared pieces:

- `files.dfy` (module `Files`) holds the working directory as a class `Disk`
  with a field `files: map<string, Content>`. Its methods are the `os` calls
  the core makes. Each JSON document is an abstract record. A file holding
  the wrong kind of record stands for a document that `json.load` or a key
  lookup rejects.
- `credentials.dfy` (module `Credentials`) holds the credential and the
  loading and consent logic that both `authenticate` functions share.
- `wrappers.dfy` holds `Option` and `Result`.

Every external call is a parameter, not a computation:

- `AuthOracle` supplies what the auth library and the user answer:
  `creds.valid`, `creds.expired`, the outcome of `creds.refresh`, and the
  outcome of the consent flow.
- `ProtocRun` supplies protoc's exit status and the files it wrote, or says
  that protoc could not be launched.
- `ProtoOracle.installed` supplies the outcome of the installation check.
- `Reply` supplies the audio chunks of the response stream, or a transport
  failure.

The setup steps and both `authenticate` functions have pure specification
functions. They are `AuthSpec`, `RegisterSpec`, `ClientAuthSpec`,
`CompileSpec`, `MoveSpec`, `ProtosSpec`, `StepSpec` and `Wizard`. Each returns
an `Effect` holding the result and the new file map. The imperative method is
proved against that function, and lemmas state what the source promises about
it.

Other operations state the new file map directly in their contracts:
- the `Disk` primitives, `GenerateProtoFile` and `ResetRegistration`;
- `AssistantClient.SendCommand`, `AssistantGui.SendCommand` and
  `RunInteractive`, which compose `ClientAuthSpec` with `Playback` or with
  `AfterCommands`.

Behaviour worth knowing, as the code has it:

- A failed token refresh during registration is not retried through consent.
  The exception ends registration with False (register_device.py:60-61).
- An empty audio reply is reported as plain failure (False), not as a
  separate outcome. `error_message` and `dialog_state_out` in responses are
  ignored (assistant_client.py:146-156).
- Nothing guards against two commands or two setups running at once.
  Because the model leaves threads out, every operation runs to completion.

## Model

| member | source | states |
|---|---|---|
| Files.Entries | generate_protos.py:162 | the names a directory listing reports are exactly the entries of that directory |
| Files.Disk.ListDir | generate_protos.py:162 | `os.listdir` yields every entry of the directory exactly once, in no fixed order |
| Files.Disk.Write | register_device.py:103-104 | writing a file (`open(.., 'w')` and `json.dump`) replaces that one entry and leaves the rest of the directory as it was |
| Files.Disk.Remove | app.py:256-257 | `os.remove` needs the file present and deletes exactly that entry |
| Files.Disk.Rename | generate_protos.py:165-167 | a rename needs the source present and the destination gone; afterwards the destination holds the source's contents and the source no longer exists |
| Credentials.ClientOf | register_device.py:42-50 | reference definition: the `installed` record of `credentials.json`, absent when that file is missing or unreadable; `Persisted` proves a token rewrite keeps it, and `AfterProtosKeepsRegistration` that the protos step does |
| Credentials.LoadSaved | register_device.py:37-52 | reference definition: the credential built from `token.json` and `credentials.json`, absent when either is missing or unreadable; `Persisted` proves the save-then-load round trip, and `UnreadableTokenIsDeleted` and `ClientAuthDecision` what follows when it is absent |
| Credentials.Consent | assistant_client.py:84-89 | reference definition: the consent flow's pair joined with the client secret, absent when the secret is unreadable or the flow raises; `OtherwiseConsent` and `ClientAuthDecision` state its outcome and what is persisted |
| Credentials.Refreshed | register_device.py:60-61 | reference definition: the new access token with the saved refresh token, or the rotated one; `ExpiredCredentialIsRefreshed` proves this pair is returned and persisted |
| Credentials.Persisted | register_device.py:67-72 | rewriting `token.json` with a credential's pair keeps the client secret, and loading the saved credential back gives exactly that pair with that secret |
| RegisterDevice.ProjectId | register_device.py:26-30 | reference definition: `installed.project_id` of `credentials.json`, absent when reading it raises; `RegisterWritesDerivedIdentity` and `NoSecretNoEffect` state what registration does with it |
| RegisterDevice.DeviceIdentityFaithful | register_device.py:93-100 | model id = `assistant-model-` + project id and device id = `assistant-device-` + project id; the project id is kept in the record; two project ids give equal identities only when they are equal |
| RegisterDevice.DeviceIdentity | register_device.py:93-100 | the record `{device_model_id, device_id, project_id}` built from the project id; its properties are `DeviceIdentityFaithful` |
| RegisterDevice.AuthSpec | register_device.py:32-74 | the specification of the registration credential flow: load, delete an unreadable token, keep a valid credential, refresh an expired one, otherwise consent, then persist |
| RegisterDevice.RegisterSpec | register_device.py:76-115 | the specification of registration: fail without a project id or on an auth error, otherwise write the derived device configuration |
| RegisterDevice.Authenticate | register_device.py:32-74 | the registration credential flow, step by step, returns what `AuthSpec` returns and leaves the directory `AuthSpec` describes |
| RegisterDevice.RegisterModelAndDevice | register_device.py:76-115 | registration returns what `RegisterSpec` returns and leaves the directory it describes |
| RegisterDevice.ValidCredentialIsKept | register_device.py:59 | a valid loaded credential is returned unchanged and nothing is written |
| RegisterDevice.ExpiredCredentialIsRefreshed | register_device.py:59-72 | an invalid, expired credential with a refresh token is refreshed: new access token, the saved refresh token unless the server rotated it, the same client, and exactly that pair persisted; a refresh failure escapes and leaves `token.json` alone |
| RegisterDevice.OtherwiseConsent | register_device.py:62-72 | any other missing or invalid credential goes through consent; its pair is persisted, and a consent failure is an error |
| RegisterDevice.UnreadableTokenIsDeleted | register_device.py:53-57 | when loading the saved credential fails, `token.json` is deleted; it is there afterwards only if consent wrote a new pair |
| RegisterDevice.TokenWrittenOnlyWhenNeeded | register_device.py:59-72 | `token.json` gains new contents only when the credential was missing or invalid, and always the pair of the credential returned |
| RegisterDevice.AuthTouchesOnlyToken | register_device.py:32-74 | authentication changes no file other than `token.json` |
| RegisterDevice.RegisterWritesDerivedIdentity | register_device.py:83-104 | registration succeeds iff the project id and authentication both succeed; then `device_config.json` holds the identity derived from the project id; otherwise `device_config.json` is unchanged |
| RegisterDevice.RegisterTouchesOnlyItsFiles | register_device.py:76-115 | registration changes only `token.json` and `device_config.json` |
| RegisterDevice.RegisteredFilesPresent | register_device.py:71-104 | after a successful registration the client secret, the device configuration and a token file exist |
| RegisterDevice.NoSecretNoEffect | register_device.py:83-115 | without a readable client secret, registration fails and writes nothing |
| RegisterDevice.RegisterIdempotent | register_device.py:93-104 | registering a second time writes exactly the device configuration the first time wrote |
| Assistant.RequestFor | assistant_client.py:122-140 | the one `AssistRequest` of an exchange; its fields are pinned by `RequestIsFixed` |
| Assistant.RequestIsFixed | assistant_client.py:122-140 | the request carries the command, encoding 1 at 16000 Hz and volume 100, language `en-US`, an empty conversation state with `is_new_conversation`, and the loaded device ids |
| Assistant.Concat | assistant_client.py:144-148 | the reference definition of the accumulated audio: the chunks joined in arrival order |
| Assistant.ConcatAppend | assistant_client.py:146-148 | joining chunks distributes over splitting the response stream |
| Assistant.ConcatOfThree | assistant_client.py:146-148 | chunks `b1, b2, b3` from three responses join to exactly `b1 + b2 + b3` |
| Assistant.ConcatPlacesChunk | assistant_client.py:146-148 | each byte of each chunk lands at its chunk's offset in the joined audio; nothing is reordered or dropped |
| Assistant.ConcatEmptyIff | assistant_client.py:147-150 | the joined audio is empty iff every response came without audio |
| Assistant.AccumulateAudio | assistant_client.py:144-148 | the loop that keeps the non-empty `audio_data` chunks yields their in-order join |
| Assistant.LoadDeviceConfig | assistant_client.py:30-36 | reference definition: the record of `device_config.json`, absent when the file is missing or unreadable; `AssistantClient.Open` proves the client opens exactly when it is present, with its ids |
| Assistant.ClientAuthSpec | assistant_client.py:60-101 | the specification of the client's credential flow: a valid saved credential, else consent persisted, never a refresh or a delete |
| Assistant.ClientAuthDecision | assistant_client.py:60-101 | the client uses a valid saved credential without writing anything; otherwise it runs consent and overwrites `token.json` with exactly the new pair; a consent failure is an error with nothing written; an unreadable token is not deleted |
| Assistant.ClientNeverRefreshes | assistant_client.py:83 | the client's decision does not depend on expiry or on the refresh outcome |
| Assistant.Playback | assistant_client.py:150-156 | audio is played exactly when the stream arrived and some response carried audio, and what is played is the in-order join |
| Assistant.AssistantClient.Open | assistant_client.py:18-36 | opening fails iff `device_config.json` is missing or unreadable; otherwise the client's ids are the file's `device_model_id` and `device_id` |
| Assistant.AssistantClient.Authenticate | assistant_client.py:60-101 | the client's credential flow, step by step, matches `ClientAuthSpec` in result and in the directory it leaves |
| Assistant.AssistantClient.SendCommand | assistant_client.py:103-162 | after authenticating, the one fixed request is sent and the result is True iff audio was played; an auth failure gives False with nothing sent or played; a transport failure gives False with the request sent and nothing played |
| Assistant.LowerAscii | assistant_client.py:177 | the lowered line has the same length as the input; the per-character mapping is the body, and `ExitSpellings` states the decision it yields |
| Assistant.IsExitCommand | assistant_client.py:177 | the loop's test `command.lower() == 'exit'`; `ExitSpellings` characterises it |
| Assistant.ExitSpellings | assistant_client.py:177 | a line ends the loop iff it is `exit` in any mix of upper and lower case |
| Assistant.FirstExit | assistant_client.py:174-178 | the loop stops at the first line that is `exit`, and at no earlier line |
| Assistant.RunInteractive | assistant_client.py:168-190 | every line before the first `exit` is sent, in order, and no line after it; cleanup runs iff a client was opened |
| GenerateProtos.EndsWith | generate_protos.py:163 | `str.endswith`: the suffix is no longer than the string and equals its tail |
| GenerateProtos.IsGenerated | generate_protos.py:163 | the filter `file.endswith('_pb2.py') or file.endswith('_pb2_grpc.py')`; `FilterSelectsModules` and `DocumentsAreNotGenerated` say what it selects |
| GenerateProtos.FilterSelectsModules | generate_protos.py:163 | both needed modules pass the suffix filter and the schema file does not |
| GenerateProtos.DocumentsAreNotGenerated | generate_protos.py:163 | `credentials.json`, `token.json` and `device_config.json` never pass the filter, so the move never touches them |
| GenerateProtos.SchemaIsInPackage | generate_protos.py:122 | the schema's path is entry `embedded_assistant.proto` of the package directory `google/assistant/embedded/v1alpha2`, so it lies in that directory and not in the working directory |
| GenerateProtos.MoveOne | generate_protos.py:164-167 | one loop iteration: remove `name` if it is there, then rename `dir/name` to `name` |
| GenerateProtos.Relocate | generate_protos.py:162-168 | the closed form of the whole loop: every moved name holds its source entry's contents, the sources are gone, and the rest is kept; the invariant of `MoveGeneratedFiles` is written against it |
| GenerateProtos.RelocateStep | generate_protos.py:162-168 | one iteration of the loop (remove the destination, then rename) extends the set of moved entries by one |
| GenerateProtos.RelocateEffects | generate_protos.py:162-168 | each moved name holds its source entry's contents and the source entry is gone; every other path is untouched |
| GenerateProtos.MoveSelectsOnlyGenerated | generate_protos.py:162-172 | the move succeeds iff some entry ends in `_pb2.py` or `_pb2_grpc.py`; a selected entry replaces any same-named file; an unselected entry stays where it was |
| GenerateProtos.MoveSpec | generate_protos.py:156-182 | the specification of the move: fail with nothing changed when no entry matches, otherwise relocate every matching entry |
| GenerateProtos.CompileSpec | generate_protos.py:128-154 | the specification of compilation: True iff protoc ran and exited 0, with its outputs added to the directory |
| GenerateProtos.ProtosSpec | generate_protos.py:184-214 | the specification of the pipeline: installation check, schema write, compilation, move, stopping at the first failure |
| GenerateProtos.PipelineStopsAtFirstFailure | generate_protos.py:184-210 | without the installation nothing is written; a compile failure stops before moving; the pipeline succeeds iff installation, protoc exit status 0 and the move all succeed |
| GenerateProtos.ProtosKeepsWorkingFiles | generate_protos.py:156-182 | no file directly in the working directory is deleted, and every such entry other than a generated module keeps its presence and its contents (the `google` directory the cleanup removes is not modelled; see `MoveGeneratedFiles` under "Left out") |
| GenerateProtos.GenerateProtoFile | generate_protos.py:119-126 | the schema is written to, and the answer is, the fixed path `google/assistant/embedded/v1alpha2/embedded_assistant.proto` |
| GenerateProtos.CompileProto | generate_protos.py:128-154 | compiling returns True iff protoc ran and exited with status 0 |
| GenerateProtos.MoveGeneratedFiles | generate_protos.py:156-182 | the loop over the listing, with its `files_moved` flag, leaves the directory relocated as `MoveSpec` states, and returns False iff nothing matched |
| GenerateProtos.RunGenerateProtos | generate_protos.py:184-214 | the step sequence with early returns matches `ProtosSpec` |
| App.Readiness | app.py:33-49 | the status map `check_setup_status` builds; its properties are `ReadinessOfFiles` |
| App.StepSpec | app.py:65-92 | the specification of one setup step by name |
| App.Wizard | app.py:195-216 | the specification of the wizard thread: outcome, steps run in order, and the directory left, all decided on the status taken at the start |
| App.AllReady | app.py:175-179 | `all_ready`: every entry of the status map is true; `ReadinessOfFiles` connects it to the five files |
| App.ReadinessOfFiles | app.py:33-49 | the status map has exactly the five required names, each mapped to that file's existence; overall readiness is the AND of the map |
| App.WizardNeedsClientSecret | app.py:199-203 | without `credentials.json` the wizard stops before any step and changes nothing |
| App.WizardRunsNeededSteps | app.py:205-216 | the wizard runs a prefix of the needed steps in order; the protos step runs iff a generated module is missing; a failed step is the last step run, so a protos failure stops the wizard before registration; a completed run ran every needed step |
| App.WizardCompletesIff | app.py:205-216 | with `credentials.json` present, the wizard completes iff the protos step succeeds when needed and registration, on the directory the protos step left, succeeds when needed |
| App.WizardRegistersWhenNeeded | app.py:205-213 | the register step runs iff the device configuration or the token is missing and the protos step, if it ran, succeeded |
| App.WizardCompletedShape | app.py:205-216 | a completed run is the protos step, if needed, followed by a successful registration, if needed |
| App.AfterProtosKeepsRegistration | app.py:205-208 | the protos step leaves the client secret, the device configuration and the token exactly as they were, so registration reads the same client secret |
| App.WizardCompletedIsRegistered | app.py:195-216 | a completed wizard leaves the client secret, the device configuration and the token in place, and the client secret unchanged |
| App.AssistantGui.constructor | app.py:11-15 | the interface starts with no client, setup incomplete, an empty status map and an empty command |
| App.AssistantGui.CheckSetupStatus | app.py:33-49 | the loop fills the status map of the five files and stores it in `setupStatus` |
| App.AssistantGui.UpdateSetupStatus | app.py:169-191 | `setupComplete` becomes overall readiness; a client is opened only when setup is complete and none exists; an existing client is never replaced |
| App.AssistantGui.RunSetupStep | app.py:65-92 | `register` and `protos` return the step's own result; any other name returns False and changes nothing |
| App.AssistantGui.RunSetupWizard | app.py:193-216 | the wizard body matches `Wizard` in outcome, steps run and directory; only a completed run rechecks the status; a completed run that started without a client opens one iff setup is complete and the device configuration is readable, with that file's ids |
| App.AssistantGui.SetCommand | app.py:221-228 | the command field takes the text entered |
| App.AssistantGui.SendCommand | app.py:230-249 | an empty command or a missing client only sets a message; otherwise the message reports the client's result |
| App.AssistantGui.ResetRegistration | app.py:251-264 | exactly `token.json` and `device_config.json` are removed (where present); the client is dropped and setup is incomplete; the recheck reports both files missing and the client secret as before |

## Left out

- User interface: windows, themes, the progress bar's float values, the timestamped log, the status text and the example-command buttons. They only display state, so only `responseText` is modelled.
- Threads: `run_setup_wizard` and `send_command` start daemon threads. Each thread body is modelled as a sequential method, and interleavings are not modelled.
- Package installation (`install_requirements` in both scripts) is left out: it starts pip and ignores failures. `check_installations` is left out too: it probes imports. Its result is the oracle flag `installed`.
- GenerateProtos.GenerateProtoFile: the directory map is flat and has no directories, so `os.makedirs` is not modelled. For example, it raises when `google` is a plain file. The program then returns False through generate_protos.py:212-214, but in the model writing the schema always succeeds.
- protoc is not modelled. It is represented only by its exit status and the files it writes. Those files are assumed to lie directly in the schema's package directory, which is where `--python_out` and `--grpc_python_out` put them when the working directory is also the include root (generate_protos.py:139-145). The text of the proto3 schema is the abstract content `ProtoSchema`.
- GenerateProtos.MoveGeneratedFiles: does not model the `shutil.rmtree('google')` cleanup after a successful move. The model leaves the remaining entries of the package directory in place.
- The printed listing of generated files at the end of `generate_protos` is left out, because it is output only.
- gRPC channel set-up, TLS, and the bearer-token call credential are left out. Only the request and the replies' audio are modelled.
- Auth library semantics are not modelled. `creds.valid`, `creds.expired`, `creds.refresh` and the browser consent flow are oracle inputs. The OAuth scope list is not stored in the credential.
- Audio playback (PyAudio) is not modelled. `SendCommand` returns the bytes handed to the player, and `RunInteractive` returns whether cleanup ran.
- JSON is not modelled at byte level. Files are abstract records, and a `null` or absent token field is the empty string.
- A partial document counts as unreadable for every reader, although the readers need different keys. For example, a `credentials.json` with `project_id` but no `client_secret` passes `get_project_id`, and the token load then fails and deletes `token.json` (register_device.py:30,48-56). In the model, such a file is not a client secret at all, and registration then stops before authentication.
- File-system errors (permissions, a full disk) never happen in the model. Only missing or unreadable documents fail.
- Assistant.ExitSpellings: lowers ASCII letters only, where Python's `str.lower` is full Unicode. No other character lowers to a letter of `exit`, so the decision is the same.
- Assistant.RunInteractive: end of input finishes the loop like `exit` does, as the `EOFError` from `input` would. `KeyboardInterrupt` is not modelled.
- A response stream that breaks part-way counts as a transport failure. The result is the same (False, nothing played), and the partial audio is not modelled.
- RegisterDevice.RegisterModelAndDevice: its `if not credentials` test never fires. `authenticate` either returns a credential or raises, so only the raising path is modelled.
