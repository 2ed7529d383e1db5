/**
  The setup state machine and the session fields of the GUI: readiness of the
  five required files, the ordered setup wizard, device-registration reset and
  the guards in front of sending a command.
 */
module App {
  import opened Wrappers
  import opened Files
  import opened Credentials
  import RegisterDevice
  import GenerateProtos
  import opened Assistant

  /** The files `check_setup_status` looks for, in the order it looks. */
  const RequiredFiles: seq<string> := [CredentialsFile, DeviceConfigFile, TokenFile, Pb2File, Pb2GrpcFile]

  const ProtosStep: string := "protos"
  const RegisterStep: string := "register"

  const PleaseEnterCommand: string := "Please enter a command"
  const NotInitialized: string := "Assistant not initialized. Please complete setup first."
  const CommandSucceeded: string := "Command processed successfully"
  const CommandFailed: string := "Command failed"

  /** The status map: each required file mapped to whether it exists. */
  function Readiness(files: FileMap): map<string, bool> {
    map f | f in RequiredFiles :: f in files
  }

  /** `all_ready`: every entry of the status map is true. */
  predicate AllReady(status: map<string, bool>) {
    forall f :: f in status ==> status[f]
  }

  /**
    The status map has exactly the five required names as keys, each mapped to
    that file's existence, and overall readiness holds exactly when all five
    files exist.
   */
  lemma ReadinessOfFiles(files: FileMap)
    ensures Readiness(files).Keys == {CredentialsFile, DeviceConfigFile, TokenFile, Pb2File, Pb2GrpcFile}
    ensures forall f :: f in Readiness(files) ==> Readiness(files)[f] == (f in files)
    ensures AllReady(Readiness(files)) <==>
      CredentialsFile in files && DeviceConfigFile in files && TokenFile in files && Pb2File in files && Pb2GrpcFile in files
  {
    var r := Readiness(files);
    assert r[CredentialsFile] == (CredentialsFile in files);
    assert r[DeviceConfigFile] == (DeviceConfigFile in files);
    assert r[TokenFile] == (TokenFile in files);
    assert r[Pb2File] == (Pb2File in files);
    assert r[Pb2GrpcFile] == (Pb2GrpcFile in files);
  }

  /** The external outcomes the two setup steps meet. */
  datatype SetupOracle = SetupOracle(protos: GenerateProtos.ProtoOracle, register: AuthOracle)

  /** `run_setup_step`: the named step's own result, and False for any other name. */
  function StepSpec(step: string, files: FileMap, o: SetupOracle): Effect<bool> {
    if step == RegisterStep then RegisterDevice.RegisterSpec(files, o.register)
    else if step == ProtosStep then GenerateProtos.ProtosSpec(files, o.protos)
    else Effect(false, files)
  }

  datatype WizardOutcome = MissingClientSecret | StepFailed(step: string) | Completed

  /** How a wizard run ends, the steps it ran in order, and the directory it leaves. */
  datatype WizardRun = WizardRun(outcome: WizardOutcome, ran: seq<string>, files: FileMap)

  /** `setup_thread`: both step decisions read the status taken once at the start. */
  function Wizard(files: FileMap, o: SetupOracle): WizardRun {
    var status := Readiness(files);
    if !status[CredentialsFile] then WizardRun(MissingClientSecret, [], files)
    else
      var needProtos := !(status[Pb2File] && status[Pb2GrpcFile]);
      var protos := StepSpec(ProtosStep, files, o);
      if needProtos && !protos.value then WizardRun(StepFailed(ProtosStep), [ProtosStep], protos.files)
      else
        var files1 := if needProtos then protos.files else files;
        var ran1 := if needProtos then [ProtosStep] else [];
        if !(status[DeviceConfigFile] && status[TokenFile]) then
          var register := StepSpec(RegisterStep, files1, o);
          WizardRun(if register.value then Completed else StepFailed(RegisterStep), ran1 + [RegisterStep], register.files)
        else WizardRun(Completed, ran1, files1)
  }

  /** The steps a directory needs, in the order the wizard takes them. */
  function NeededSteps(files: FileMap): seq<string> {
    (if Pb2File in files && Pb2GrpcFile in files then [] else [ProtosStep])
    + (if DeviceConfigFile in files && TokenFile in files then [] else [RegisterStep])
  }

  /** Without `credentials.json` the wizard stops before any step and changes nothing. */
  lemma WizardNeedsClientSecret(files: FileMap, o: SetupOracle)
    requires CredentialsFile !in files
    ensures Wizard(files, o) == WizardRun(MissingClientSecret, [], files)
  {
    ReadinessOfFiles(files);
  }

  /**
    With `credentials.json` present the wizard runs a prefix of the needed
    steps, in order; it completes exactly when it ran all of them and every one
    succeeded, and a failure ends the run at the step that failed, so a failed
    schema generation stops it before registration.
   */
  lemma WizardRunsNeededSteps(files: FileMap, o: SetupOracle)
    requires CredentialsFile in files
    ensures var w := Wizard(files, o);
      && w.outcome != MissingClientSecret
      && w.ran <= NeededSteps(files)
      && (ProtosStep in w.ran <==> !(Pb2File in files && Pb2GrpcFile in files))
      && (w.outcome.Completed? ==> w.ran == NeededSteps(files))
      && (w.outcome.StepFailed? ==> w.ran != [] && w.outcome.step == w.ran[|w.ran| - 1])
      && (w.outcome == StepFailed(ProtosStep) ==>
            w.ran == [ProtosStep] && w.files == GenerateProtos.ProtosSpec(files, o.protos).files)
  {
    ReadinessOfFiles(files);
  }

  /**
    The register step runs exactly when the device configuration or the token
    is missing and the schema step, if it ran, succeeded.
   */
  lemma WizardRegistersWhenNeeded(files: FileMap, o: SetupOracle)
    requires CredentialsFile in files
    ensures var w := Wizard(files, o);
      RegisterStep in w.ran <==>
        && !(DeviceConfigFile in files && TokenFile in files)
        && (!(Pb2File in files && Pb2GrpcFile in files) ==> GenerateProtos.ProtosSpec(files, o.protos).value)
  {
    ReadinessOfFiles(files);
  }

  /** The directory a run has once the schema step, if needed, succeeded. */
  function AfterProtos(files: FileMap, o: SetupOracle): FileMap {
    if Pb2File in files && Pb2GrpcFile in files then files else GenerateProtos.ProtosSpec(files, o.protos).files
  }

  /** A completed run is the schema step (if needed) followed by a successful registration (if needed). */
  lemma WizardCompletedShape(files: FileMap, o: SetupOracle)
    requires Wizard(files, o).outcome.Completed?
    ensures CredentialsFile in files
    ensures var w := Wizard(files, o);
      if DeviceConfigFile in files && TokenFile in files then w.files == AfterProtos(files, o)
      else (RegisterDevice.RegisterSpec(AfterProtos(files, o), o.register).value
        && w.files == RegisterDevice.RegisterSpec(AfterProtos(files, o), o.register).files)
  {
    ReadinessOfFiles(files);
  }

  /**
    The schema step leaves the three files registration is about exactly as
    they were, so registration reads the same client secret it would have read
    before.
   */
  lemma AfterProtosKeepsRegistration(files: FileMap, o: SetupOracle)
    ensures var f := AfterProtos(files, o);
      && Agrees(files, f, CredentialsFile) && Agrees(files, f, DeviceConfigFile) && Agrees(files, f, TokenFile)
      && ClientOf(f) == ClientOf(files)
  {
    if !(Pb2File in files && Pb2GrpcFile in files) {
      GenerateProtos.DocumentsAreNotGenerated();
      assert IsEntryName(CredentialsFile) && IsEntryName(DeviceConfigFile) && IsEntryName(TokenFile);
      GenerateProtos.ProtosKeepsWorkingFiles(files, o.protos, CredentialsFile);
      GenerateProtos.ProtosKeepsWorkingFiles(files, o.protos, DeviceConfigFile);
      GenerateProtos.ProtosKeepsWorkingFiles(files, o.protos, TokenFile);
    }
  }

  /**
    With `credentials.json` present the wizard completes exactly when the schema
    step succeeds if it is needed and registration, on the directory the schema
    step leaves, succeeds if it is needed.
   */
  lemma WizardCompletesIff(files: FileMap, o: SetupOracle)
    requires CredentialsFile in files
    ensures Wizard(files, o).outcome.Completed? <==>
      && (!(Pb2File in files && Pb2GrpcFile in files) ==> GenerateProtos.ProtosSpec(files, o.protos).value)
      && (!(DeviceConfigFile in files && TokenFile in files) ==>
            RegisterDevice.RegisterSpec(AfterProtos(files, o), o.register).value)
  {
    ReadinessOfFiles(files);
  }

  /**
    A completed run leaves the client secret, the device configuration and the
    token in the working directory, whichever steps it needed, and the client
    secret untouched.
   */
  lemma WizardCompletedIsRegistered(files: FileMap, o: SetupOracle)
    requires Wizard(files, o).outcome.Completed?
    ensures var w := Wizard(files, o);
      && CredentialsFile in w.files && DeviceConfigFile in w.files && TokenFile in w.files
      && w.files[CredentialsFile] == files[CredentialsFile]
  {
    WizardCompletedShape(files, o);
    AfterProtosKeepsRegistration(files, o);
    if !(DeviceConfigFile in files && TokenFile in files) {
      RegisterDevice.RegisteredFilesPresent(AfterProtos(files, o), o.register);
      RegisterDevice.RegisterTouchesOnlyItsFiles(AfterProtos(files, o), o.register);
    }
  }

  /** The user interface object, reduced to the fields the core reads and writes. */
  class AssistantGui {
    const disk: Disk
    var assistant: AssistantClient?
    var setupComplete: bool
    var setupStatus: map<string, bool>
    var commandInput: string
    var responseText: string

    /** A client always works on the same directory as the interface. */
    ghost predicate Valid()
      reads this
    {
      assistant != null ==> assistant.disk == disk
    }

    constructor (disk: Disk)
      ensures Valid() && this.disk == disk
      ensures assistant == null && !setupComplete && setupStatus == map[]
      ensures commandInput == "" && responseText == ""
    {
      this.disk := disk;
      assistant := null;
      setupComplete := false;
      setupStatus := map[];
      commandInput := "";
      responseText := "";
    }

    /** `check_setup_status`: fill the status map and keep it in `setupStatus`. */
    method CheckSetupStatus() returns (status: map<string, bool>)
      modifies this`setupStatus
      ensures status == Readiness(disk.files) && setupStatus == status
    {
      status := map f | f in RequiredFiles :: false;
      for i := 0 to |RequiredFiles|
        invariant status.Keys == Readiness(disk.files).Keys
        invariant forall j :: 0 <= j < i ==> status[RequiredFiles[j]] == (RequiredFiles[j] in disk.files)
      {
        status := status[RequiredFiles[i] := RequiredFiles[i] in disk.files];
      }
      setupStatus := status;
    }

    /**
      `update_setup_status`: recheck, set `setupComplete` to overall readiness,
      and open a client only when setup is complete and none exists yet; an
      existing client is never replaced.
     */
    method UpdateSetupStatus()
      requires Valid()
      modifies this
      ensures Valid()
      ensures setupStatus == Readiness(disk.files) && setupComplete == AllReady(setupStatus)
      ensures old(assistant) != null ==> assistant == old(assistant)
      ensures old(assistant) == null ==>
        (assistant != null <==> setupComplete && LoadDeviceConfig(disk.files).Some?)
      ensures old(assistant) == null && assistant != null ==>
        && fresh(assistant)
        && assistant.deviceModelId == disk.files[DeviceConfigFile].config.deviceModelId
        && assistant.deviceId == disk.files[DeviceConfigFile].config.deviceId
      ensures commandInput == old(commandInput) && responseText == old(responseText)
    {
      var status := CheckSetupStatus();
      ReadinessOfFiles(disk.files);
      var allReady := true;
      for i := 0 to |RequiredFiles|
        invariant allReady <==> forall j :: 0 <= j < i ==> status[RequiredFiles[j]]
      {
        if !status[RequiredFiles[i]] {
          allReady := false;
        }
      }
      setupComplete := allReady;
      if setupComplete && assistant == null {
        var client := AssistantClient.Open(disk);
        if client != null {
          assistant := client;
        }
      }
    }

    method RunSetupStep(step: string, o: SetupOracle) returns (ok: bool)
      modifies disk
      ensures ok == StepSpec(step, old(disk.files), o).value
      ensures disk.files == StepSpec(step, old(disk.files), o).files
    {
      if step == RegisterStep {
        ok := RegisterDevice.RegisterModelAndDevice(disk, o.register);
        return;
      } else if step == ProtosStep {
        ok := GenerateProtos.RunGenerateProtos(disk, o.protos);
        return;
      }
      return false;
    }

    /** `run_setup_wizard`'s thread body: the ordered, short-circuiting steps, then a recheck. */
    method RunSetupWizard(o: SetupOracle) returns (outcome: WizardOutcome, ran: seq<string>)
      requires Valid()
      modifies this, disk
      ensures Valid()
      ensures var w := Wizard(old(disk.files), o);
        outcome == w.outcome && ran == w.ran && disk.files == w.files
      ensures outcome.Completed? ==>
        && setupStatus == Readiness(disk.files) && setupComplete == AllReady(setupStatus)
        && (old(assistant) != null ==> assistant == old(assistant))
      ensures outcome.Completed? && old(assistant) == null ==>
        && (assistant != null <==> setupComplete && LoadDeviceConfig(disk.files).Some?)
        && (assistant != null ==>
              && fresh(assistant)
              && assistant.deviceModelId == disk.files[DeviceConfigFile].config.deviceModelId
              && assistant.deviceId == disk.files[DeviceConfigFile].config.deviceId)
      ensures !outcome.Completed? ==>
        && setupStatus == Readiness(old(disk.files))
        && setupComplete == old(setupComplete) && assistant == old(assistant)
      ensures commandInput == old(commandInput) && responseText == old(responseText)
    {
      ghost var start := disk.files;
      var status := CheckSetupStatus();
      ran := [];
      if !status[CredentialsFile] {
        return MissingClientSecret, ran;
      }
      if !(status[Pb2File] && status[Pb2GrpcFile]) {
        ran := ran + [ProtosStep];
        var ok := RunSetupStep(ProtosStep, o);
        if !ok {
          return StepFailed(ProtosStep), ran;
        }
      }
      assert disk.files == AfterProtos(start, o);
      if !(status[DeviceConfigFile] && status[TokenFile]) {
        ran := ran + [RegisterStep];
        var ok := RunSetupStep(RegisterStep, o);
        if !ok {
          return StepFailed(RegisterStep), ran;
        }
      }
      ghost var finished := disk.files;
      assert finished == Wizard(start, o).files;
      UpdateSetupStatus();
      return Completed, ran;
    }

    /** `on_command_input` / `set_command`. */
    method SetCommand(command: string)
      modifies this`commandInput
      ensures commandInput == command
    {
      commandInput := command;
    }

    /**
      `send_command`: an empty command or a missing client only sets a message;
      otherwise the client's result decides the message.
     */
    method SendCommand(o: CallOracle)
      requires Valid()
      modifies this`responseText, disk
      ensures Valid()
      ensures commandInput == "" ==> responseText == PleaseEnterCommand && disk.files == old(disk.files)
      ensures commandInput != "" && assistant == null ==>
        responseText == NotInitialized && disk.files == old(disk.files)
      ensures commandInput != "" && assistant != null ==>
        var a := ClientAuthSpec(old(disk.files), o.auth);
        && disk.files == a.files
        && responseText == (if a.value.Ok? && Playback(o.reply).Some? then CommandSucceeded else CommandFailed)
    {
      if commandInput == "" {
        responseText := PleaseEnterCommand;
        return;
      }
      if assistant == null {
        responseText := NotInitialized;
        return;
      }
      var result, _, _ := assistant.SendCommand(commandInput, o);
      responseText := if result then CommandSucceeded else CommandFailed;
    }

    /**
      `reset_registration`: delete `token.json` and `device_config.json` where
      present, drop the client, and recheck; the recheck then reports neither
      file, keeps the client secret's entry, and setup is incomplete.
     */
    method ResetRegistration()
      requires Valid()
      modifies this, disk
      ensures Valid()
      ensures disk.files == old(disk.files) - {TokenFile, DeviceConfigFile}
      ensures assistant == null && !setupComplete
      ensures setupStatus == Readiness(disk.files)
      ensures !setupStatus[TokenFile] && !setupStatus[DeviceConfigFile]
      ensures setupStatus[CredentialsFile] == (CredentialsFile in old(disk.files))
      ensures commandInput == old(commandInput) && responseText == old(responseText)
    {
      var filesToRemove := [TokenFile, DeviceConfigFile];
      for i := 0 to |filesToRemove|
        invariant disk.files == old(disk.files) - (set f | f in filesToRemove[..i])
        modifies disk
      {
        if filesToRemove[i] in disk.files {
          disk.Remove(filesToRemove[i]);
        }
      }
      assert filesToRemove[..|filesToRemove|] == filesToRemove;
      setupComplete := false;
      assistant := null;
      UpdateSetupStatus();
      ReadinessOfFiles(disk.files);
    }
  }
}
