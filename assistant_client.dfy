/**
  The assist session: a client bound to the registered device identity that
  authenticates, sends one text query over the streaming `Assist` call and
  plays back the audio the server streams in reply; and the interactive
  command loop around it.
 */
module Assistant {
  import opened Wrappers
  import opened Files
  import opened Credentials

  newtype byte = b: int | 0 <= b < 256

  const LanguageCode: string := "en-US"
  const Linear16: int := 1
  const SampleRateHertz: int := 16000
  const FullVolume: int := 100

  datatype AudioOutConfig = AudioOutConfig(encoding: int, sampleRateHertz: int, volumePercentage: int)
  datatype DialogStateIn = DialogStateIn(languageCode: string, conversationState: seq<byte>, isNewConversation: bool)
  datatype DeviceRef = DeviceRef(deviceId: string, deviceModelId: string)
  datatype AssistConfig = AssistConfig(textQuery: string, audioOutConfig: AudioOutConfig,
                                       dialogStateIn: DialogStateIn, deviceConfig: DeviceRef)
  datatype AssistRequest = AssistRequest(config: AssistConfig)

  /**
    What the `Assist` stream delivers: the `audio_out.audio_data` of each
    response in arrival order (empty for a response without audio), or a
    failure of the channel or the stream, which the client turns into False.
   */
  datatype Reply = Responses(audio: seq<seq<byte>>) | TransportFailure

  /** The external outcomes of one `send_command`. */
  datatype CallOracle = CallOracle(auth: AuthOracle, reply: Reply)

  /** The one request of an exchange; nothing in it depends on an earlier call. */
  function RequestFor(command: string, deviceModelId: string, deviceId: string): AssistRequest {
    AssistRequest(AssistConfig(
      command,
      AudioOutConfig(Linear16, SampleRateHertz, FullVolume),
      DialogStateIn(LanguageCode, [], true),
      DeviceRef(deviceId, deviceModelId)))
  }

  /**
    The request always carries the command, LINEAR16 audio at 16000 Hz and full
    volume, language `en-US`, an empty conversation state marked as a new
    conversation, and the device ids; equal inputs give equal requests.
   */
  lemma RequestIsFixed(command: string, deviceModelId: string, deviceId: string)
    ensures var c := RequestFor(command, deviceModelId, deviceId).config;
      && c.textQuery == command
      && c.audioOutConfig.encoding == 1 && c.audioOutConfig.sampleRateHertz == 16000
      && c.audioOutConfig.volumePercentage == 100
      && c.dialogStateIn.languageCode == "en-US" && c.dialogStateIn.conversationState == []
      && c.dialogStateIn.isNewConversation
      && c.deviceConfig.deviceId == deviceId && c.deviceConfig.deviceModelId == deviceModelId
  {
  }

  /** The chunks joined in arrival order. */
  function Concat(chunks: seq<seq<byte>>): seq<byte> {
    if chunks == [] then [] else Concat(chunks[..|chunks| - 1]) + chunks[|chunks| - 1]
  }

  lemma {:induction false} ConcatAppend(a: seq<seq<byte>>, b: seq<seq<byte>>)
    ensures Concat(a + b) == Concat(a) + Concat(b)
    decreases |b|
  {
    if b == [] {
      assert a + b == a;
    } else {
      var b' := b[..|b| - 1];
      assert (a + b)[..|a + b| - 1] == a + b';
      ConcatAppend(a, b');
    }
  }

  /** The chunks `[b1, b2, b3]` of three responses give exactly `b1 + b2 + b3`. */
  lemma ConcatOfThree(b1: seq<byte>, b2: seq<byte>, b3: seq<byte>)
    ensures Concat([b1, b2, b3]) == b1 + b2 + b3
  {
    assert Concat([b1]) == b1 by { assert [b1][..0] == []; }
    assert Concat([b1, b2]) == b1 + b2 by { assert [b1, b2][..1] == [b1]; }
    assert [b1, b2, b3][..2] == [b1, b2];
  }

  /** Each chunk appears, unchanged, at its place: byte position `Offset(chunks, i) + j` is byte `j` of chunk `i`. */
  function Offset(chunks: seq<seq<byte>>, i: nat): nat
    requires i <= |chunks|
  {
    |Concat(chunks[..i])|
  }

  lemma ConcatPlacesChunk(chunks: seq<seq<byte>>, i: nat, j: nat)
    requires i < |chunks| && j < |chunks[i]|
    ensures Offset(chunks, i) + j < |Concat(chunks)|
    ensures Concat(chunks)[Offset(chunks, i) + j] == chunks[i][j]
  {
    assert chunks == chunks[..i] + ([chunks[i]] + chunks[i + 1..]);
    ConcatAppend(chunks[..i], [chunks[i]] + chunks[i + 1..]);
    ConcatAppend([chunks[i]], chunks[i + 1..]);
    assert Concat([chunks[i]]) == chunks[i] by {
      assert [chunks[i]][..0] == [];
    }
  }

  /** The accumulated audio is empty exactly when every response came without audio. */
  lemma {:induction false} ConcatEmptyIff(chunks: seq<seq<byte>>)
    ensures Concat(chunks) == [] <==> forall i :: 0 <= i < |chunks| ==> chunks[i] == []
  {
    if chunks != [] {
      var init := chunks[..|chunks| - 1];
      ConcatEmptyIff(init);
      assert forall i :: 0 <= i < |init| ==> init[i] == chunks[i];
    }
  }

  /** The loop of `send_command` over the responses: keep the non-empty `audio_data` in arrival order. */
  method AccumulateAudio(chunks: seq<seq<byte>>) returns (audio: seq<byte>)
    ensures audio == Concat(chunks)
  {
    audio := [];
    for i := 0 to |chunks|
      invariant audio == Concat(chunks[..i])
    {
      assert chunks[..i + 1][..i] == chunks[..i];
      if chunks[i] != [] {
        audio := audio + chunks[i];
      }
    }
    assert chunks[..|chunks|] == chunks;
  }

  /** The device configuration the constructor reads; None when the file is missing or unreadable. */
  function LoadDeviceConfig(files: FileMap): Option<DeviceConfig> {
    if DeviceConfigFile in files && files[DeviceConfigFile].DeviceDoc? then Some(files[DeviceConfigFile].config) else None
  }

  /** `authenticate` of the client: the saved credential if it is valid, else consent. It never refreshes. */
  function ClientAuthSpec(files: FileMap, o: AuthOracle): Effect<Result<Credential, AuthError>> {
    var loaded := LoadSaved(files);
    if loaded.Some? && o.valid then Effect(Ok(loaded.value), files)
    else
      match Consent(files, o)
      case None => Effect(Err(ConsentFailed), files)
      case Some(c) => Effect(Ok(c), Persisted(files, c))
  }

  /**
    A valid saved credential is used without writing anything; otherwise
    consent runs and `token.json` is overwritten with exactly its pair, or the
    consent error escapes with nothing written. An unreadable token file is
    never deleted.
   */
  lemma ClientAuthDecision(files: FileMap, o: AuthOracle)
    ensures var a := ClientAuthSpec(files, o);
      if LoadSaved(files).Some? && o.valid then a == Effect(Ok(LoadSaved(files).value), files)
      else if ClientOf(files).Some? && o.consent.Some? then
        && a.value == Ok(Credential(o.consent.value, files[CredentialsFile].secret))
        && a.files == files[TokenFile := TokenDoc(o.consent.value)]
      else a == Effect(Err(ConsentFailed), files)
  {
  }

  /** Unlike registration, the client's decision ignores expiry and the refresh outcome entirely. */
  lemma ClientNeverRefreshes(files: FileMap, o: AuthOracle, expired: bool, refreshed: Option<RefreshGrant>)
    ensures ClientAuthSpec(files, o) == ClientAuthSpec(files, o.(expired := expired, refreshed := refreshed))
  {
  }

  /** The audio `send_command` hands to the player: the joined chunks, when there are any. */
  function Playback(reply: Reply): (r: Option<seq<byte>>)
    ensures r.Some? <==> reply.Responses? && exists i :: 0 <= i < |reply.audio| && reply.audio[i] != []
    ensures r.Some? ==> r.value == Concat(reply.audio) && r.value != []
  {
    if reply.TransportFailure? then None
    else
      ConcatEmptyIff(reply.audio);
      if Concat(reply.audio) == [] then None else Some(Concat(reply.audio))
  }

  class AssistantClient {
    const disk: Disk
    const deviceModelId: string
    const deviceId: string

    constructor (disk: Disk, config: DeviceConfig)
      ensures this.disk == disk && deviceModelId == config.deviceModelId && deviceId == config.deviceId
    {
      this.disk := disk;
      deviceModelId := config.deviceModelId;
      deviceId := config.deviceId;
    }

    /**
      `GoogleAssistantClient()`: null where the constructor raises, that is when
      `device_config.json` is missing or unreadable; otherwise a client with the
      file's `device_model_id` and `device_id`.
     */
    static method Open(disk: Disk) returns (c: AssistantClient?)
      ensures c == null <==> LoadDeviceConfig(disk.files).None?
      ensures c != null ==>
        && fresh(c) && c.disk == disk
        && c.deviceModelId == disk.files[DeviceConfigFile].config.deviceModelId
        && c.deviceId == disk.files[DeviceConfigFile].config.deviceId
    {
      if DeviceConfigFile !in disk.files {
        return null;
      }
      var config := LoadDeviceConfig(disk.files);
      if config.None? {
        return null;
      }
      c := new AssistantClient(disk, config.value);
    }

    method Authenticate(o: AuthOracle) returns (r: Result<Credential, AuthError>)
      modifies disk
      ensures r == ClientAuthSpec(old(disk.files), o).value
      ensures disk.files == ClientAuthSpec(old(disk.files), o).files
    {
      var credentials: Option<Credential> := None;
      if TokenFile in disk.files {
        credentials := LoadSaved(disk.files);
      }
      if credentials.None? || !o.valid {
        credentials := Consent(disk.files, o);
        if credentials.None? {
          return Err(ConsentFailed);
        }
        disk.Write(TokenFile, TokenDoc(credentials.value.pair));
      }
      return Ok(credentials.value);
    }

    /**
      `send_command`: authenticate, send the one request, join the audio of the
      replies and play it. True exactly when there was audio to play; every
      failure on the way gives False with nothing played.
     */
    method SendCommand(command: string, o: CallOracle) returns (ok: bool, sent: Option<AssistRequest>, played: Option<seq<byte>>)
      modifies disk
      ensures disk.files == ClientAuthSpec(old(disk.files), o.auth).files
      ensures ClientAuthSpec(old(disk.files), o.auth).value.Err? ==> sent == None && played == None
      ensures ClientAuthSpec(old(disk.files), o.auth).value.Ok? ==>
        sent == Some(RequestFor(command, deviceModelId, deviceId)) && played == Playback(o.reply)
      ensures ok <==> played.Some?
    {
      sent, played := None, None;
      var credentials := Authenticate(o.auth);
      if credentials.Err? {
        return false, sent, played;
      }
      var request := RequestFor(command, deviceModelId, deviceId);
      sent := Some(request);
      if o.reply.TransportFailure? {
        return false, sent, played;
      }
      var audio := AccumulateAudio(o.reply.audio);
      if audio != [] {
        played := Some(audio);
        return true, sent, played;
      }
      return false, sent, played;
    }
  }

  // ---------------------------------------------------------------------------
  // The interactive loop

  /** `str.lower` on the ASCII letters. */
  function LowerAscii(s: string): (r: string)
    ensures |r| == |s|
  {
    seq(|s|, i requires 0 <= i < |s| => if 'A' <= s[i] <= 'Z' then (s[i] as int + 32) as char else s[i])
  }

  predicate IsExitCommand(line: string) {
    LowerAscii(line) == "exit"
  }

  /** `exit` in any mix of cases ends the loop; nothing else of another length or spelling does. */
  lemma ExitSpellings(line: string)
    ensures IsExitCommand(line) <==>
      |line| == 4 && line[0] in "eE" && line[1] in "xX" && line[2] in "iI" && line[3] in "tT"
  {
    if |line| == 4 {
      var l := LowerAscii(line);
      assert l == [l[0], l[1], l[2], l[3]];
    } else {
      assert |LowerAscii(line)| != |"exit"|;
    }
  }

  /** The index of the first line that ends the loop, or the number of lines. */
  function FirstExit(lines: seq<string>): (k: nat)
    ensures k <= |lines|
    ensures forall j :: 0 <= j < k ==> !IsExitCommand(lines[j])
    ensures k < |lines| ==> IsExitCommand(lines[k])
  {
    if lines == [] || IsExitCommand(lines[0]) then 0 else 1 + FirstExit(lines[1..])
  }

  /** One prompt of the loop: the line typed and what sending it would meet. */
  datatype Turn = Turn(line: string, oracle: CallOracle)

  /** The lines typed, one per turn. */
  function Lines(turns: seq<Turn>): seq<string> {
    seq(|turns|, i requires 0 <= i < |turns| => turns[i].line)
  }

  /** The directory after the commands of `turns` were sent one after another. */
  function AfterCommands(files: FileMap, turns: seq<Turn>): FileMap {
    if turns == [] then files
    else ClientAuthSpec(AfterCommands(files, turns[..|turns| - 1]), turns[|turns| - 1].oracle.auth).files
  }

  /**
    `main`: open a client, then send every line typed until one reads `exit`;
    running out of input ends the loop too. The audio resources are released
    whenever a client was opened.
   */
  method RunInteractive(disk: Disk, turns: seq<Turn>) returns (commands: seq<string>, cleanedUp: bool)
    modifies disk
    ensures LoadDeviceConfig(old(disk.files)).None? ==> commands == [] && !cleanedUp && disk.files == old(disk.files)
    ensures LoadDeviceConfig(old(disk.files)).Some? ==>
      && cleanedUp
      && commands == Lines(turns)[..FirstExit(Lines(turns))]
      && disk.files == AfterCommands(old(disk.files), turns[..FirstExit(Lines(turns))])
  {
    commands, cleanedUp := [], false;
    var assistant := AssistantClient.Open(disk);
    if assistant == null {
      return;
    }
    ghost var k := FirstExit(Lines(turns));
    var i := 0;
    while i < |turns|
      invariant 0 <= i <= k
      invariant commands == Lines(turns)[..i]
      invariant disk.files == AfterCommands(old(disk.files), turns[..i])
      invariant assistant.disk == disk
    {
      assert Lines(turns)[i] == turns[i].line;
      if LowerAscii(turns[i].line) == "exit" {
        break;
      }
      var _, _, _ := assistant.SendCommand(turns[i].line, turns[i].oracle);
      assert turns[..i + 1][..i] == turns[..i];
      commands := commands + [turns[i].line];
      i := i + 1;
    }
    cleanedUp := true;
  }
}
