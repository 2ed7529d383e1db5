/**
  Device registration: the project id read from the client secret, the two
  device identifiers derived from it, and the credential lifecycle that
  registration goes through (load, refresh or consent, persist).
 */
module RegisterDevice {
  import opened Wrappers
  import opened Files
  import opened Credentials

  const ModelPrefix: string := "assistant-model-"
  const DevicePrefix: string := "assistant-device-"

  /** `get_project_id`: `installed.project_id` of `credentials.json`; None when reading it raises. */
  function ProjectId(files: FileMap): Option<string> {
    match ClientOf(files)
    case Some(c) => Some(c.projectId)
    case None => None
  }

  /** The device configuration registration writes for `projectId`. */
  function DeviceIdentity(projectId: string): DeviceConfig {
    DeviceConfig(ModelPrefix + projectId, DevicePrefix + projectId, projectId)
  }

  /**
    The identity is a function of the project id alone and tells the project
    back: both ids carry their fixed prefix followed by the project id, and two
    project ids give the same identity exactly when they are equal.
   */
  lemma DeviceIdentityFaithful(p: string, q: string)
    ensures var d := DeviceIdentity(p);
      && |d.deviceModelId| == |ModelPrefix| + |p| && d.deviceModelId[..|ModelPrefix|] == ModelPrefix
      && d.deviceModelId[|ModelPrefix|..] == p
      && |d.deviceId| == |DevicePrefix| + |p| && d.deviceId[..|DevicePrefix|] == DevicePrefix
      && d.deviceId[|DevicePrefix|..] == p
      && d.projectId == p
    ensures DeviceIdentity(p) == DeviceIdentity(q) <==> p == q
  {
    var d, e := DeviceIdentity(p), DeviceIdentity(q);
    assert d.deviceModelId[|ModelPrefix|..] == p;
    assert d.deviceId[|DevicePrefix|..] == p;
    assert e.deviceModelId[|ModelPrefix|..] == q;
  }

  /** `authenticate` of the registration script, on the directory as it stands. */
  function AuthSpec(files: FileMap, o: AuthOracle): Effect<Result<Credential, AuthError>> {
    var loaded := LoadSaved(files);
    var kept := if TokenFile in files && loaded.None? then files - {TokenFile} else files;
    if loaded.Some? && o.valid then Effect(Ok(loaded.value), kept)
    else if loaded.Some? && o.expired && loaded.value.pair.refreshToken != "" then
      match o.refreshed
      case None => Effect(Err(RefreshFailed), kept)
      case Some(g) =>
        var c := Credential(Refreshed(loaded.value.pair, g), loaded.value.client);
        Effect(Ok(c), Persisted(kept, c))
    else
      match Consent(kept, o)
      case None => Effect(Err(ConsentFailed), kept)
      case Some(c) => Effect(Ok(c), Persisted(kept, c))
  }

  /** `register_model_and_device`: True exactly when `device_config.json` was written. */
  function RegisterSpec(files: FileMap, o: AuthOracle): Effect<bool> {
    match ProjectId(files)
    case None => Effect(false, files)
    case Some(p) =>
      var a := AuthSpec(files, o);
      if a.value.Err? then Effect(false, a.files)
      else Effect(true, a.files[DeviceConfigFile := DeviceDoc(DeviceIdentity(p))])
  }

  method Authenticate(disk: Disk, o: AuthOracle) returns (r: Result<Credential, AuthError>)
    modifies disk
    ensures r == AuthSpec(old(disk.files), o).value
    ensures disk.files == AuthSpec(old(disk.files), o).files
  {
    var creds: Option<Credential> := None;
    if TokenFile in disk.files {
      creds := LoadSaved(disk.files);
      if creds.None? && TokenFile in disk.files {
        disk.Remove(TokenFile);
      }
    }
    if creds.None? || !o.valid {
      if creds.Some? && o.expired && creds.value.pair.refreshToken != "" {
        if o.refreshed.None? {
          return Err(RefreshFailed);
        }
        creds := Some(Credential(Refreshed(creds.value.pair, o.refreshed.value), creds.value.client));
      } else {
        creds := Consent(disk.files, o);
        if creds.None? {
          return Err(ConsentFailed);
        }
      }
      disk.Write(TokenFile, TokenDoc(creds.value.pair));
    }
    return Ok(creds.value);
  }

  method RegisterModelAndDevice(disk: Disk, o: AuthOracle) returns (ok: bool)
    modifies disk
    ensures ok == RegisterSpec(old(disk.files), o).value
    ensures disk.files == RegisterSpec(old(disk.files), o).files
  {
    var projectId := ProjectId(disk.files);
    if projectId.None? {
      return false;
    }
    var credentials := Authenticate(disk, o);
    if credentials.Err? {
      return false;
    }
    disk.Write(DeviceConfigFile, DeviceDoc(DeviceIdentity(projectId.value)));
    return true;
  }

  // ---------------------------------------------------------------------------
  // The credential decision

  /** A loaded credential that is valid is returned as it is and nothing is written. */
  lemma ValidCredentialIsKept(files: FileMap, o: AuthOracle)
    requires LoadSaved(files).Some? && o.valid
    ensures AuthSpec(files, o) == Effect(Ok(LoadSaved(files).value), files)
  {
  }

  /**
    Refresh round trip: an invalid, expired credential with a refresh token is
    refreshed; the result carries the new access token and the saved refresh
    token (or the new one, if the server rotated it) for the same client, and
    exactly that pair is persisted. When the refresh raises, the error escapes
    and `token.json` is left as it was.
   */
  lemma ExpiredCredentialIsRefreshed(files: FileMap, o: AuthOracle)
    requires LoadSaved(files).Some? && !o.valid && o.expired && LoadSaved(files).value.pair.refreshToken != ""
    ensures var a := AuthSpec(files, o); var saved := files[TokenFile].pair;
      match o.refreshed
      case Some(g) =>
        var issued := TokenPair(g.accessToken, if g.rotated.Some? then g.rotated.value else saved.refreshToken);
        && a.value == Ok(Credential(issued, files[CredentialsFile].secret))
        && a.files == files[TokenFile := TokenDoc(issued)]
      case None => a == Effect(Err(RefreshFailed), files)
  {
  }

  /**
    Every other missing or invalid credential goes through consent, whose pair
    is persisted; a consent failure escapes.
   */
  lemma OtherwiseConsent(files: FileMap, o: AuthOracle)
    requires var l := LoadSaved(files); l.None? || (!o.valid && !(o.expired && l.value.pair.refreshToken != ""))
    ensures var a := AuthSpec(files, o);
      if ClientOf(files).Some? && o.consent.Some? then
        && a.value == Ok(Credential(o.consent.value, files[CredentialsFile].secret))
        && TokenFile in a.files && a.files[TokenFile] == TokenDoc(o.consent.value)
      else a.value == Err(ConsentFailed)
  {
  }

  /**
    An unreadable `token.json` is deleted; unless consent then issues a new
    pair, the directory is left without a token file.
   */
  lemma UnreadableTokenIsDeleted(files: FileMap, o: AuthOracle)
    requires TokenFile in files && LoadSaved(files).None?
    ensures var a := AuthSpec(files, o);
      a.value.Err? ==> a.files == files - {TokenFile}
    ensures var a := AuthSpec(files, o);
      a.value.Ok? ==> a.files == (files - {TokenFile})[TokenFile := TokenDoc(a.value.value.pair)]
  {
  }

  /**
    `token.json` is (re)written exactly on the paths where the credential was
    missing or invalid, and only with the pair of the credential returned.
   */
  lemma TokenWrittenOnlyWhenNeeded(files: FileMap, o: AuthOracle)
    ensures var a := AuthSpec(files, o);
      TokenFile in a.files && (TokenFile !in files || a.files[TokenFile] != files[TokenFile])
      ==> !(LoadSaved(files).Some? && o.valid) && a.value.Ok? && a.files[TokenFile] == TokenDoc(a.value.value.pair)
  {
    var a := AuthSpec(files, o);
    var loaded := LoadSaved(files);
    if TokenFile in a.files && (TokenFile !in files || a.files[TokenFile] != files[TokenFile]) {
      // a valid loaded credential leaves the directory as it was, so it is not this case
      if loaded.Some? && !o.valid && o.expired && loaded.value.pair.refreshToken != "" {
        assert o.refreshed.Some?;
      } else if !(loaded.Some? && o.valid) {
        var kept := if TokenFile in files && loaded.None? then files - {TokenFile} else files;
        assert Consent(kept, o).Some?;
      }
    }
  }

  /** Authentication changes no file but `token.json`. */
  lemma AuthTouchesOnlyToken(files: FileMap, o: AuthOracle)
    ensures var a := AuthSpec(files, o);
      forall k :: k != TokenFile ==> (k in a.files <==> k in files) && (k in files ==> a.files[k] == files[k])
  {
  }

  // ---------------------------------------------------------------------------
  // Registration

  /**
    Registration succeeds exactly when both the project id and authentication
    succeed; then `device_config.json` holds the identity derived from the
    project id of `credentials.json`. Otherwise `device_config.json` is as it was.
   */
  lemma RegisterWritesDerivedIdentity(files: FileMap, o: AuthOracle)
    ensures var r := RegisterSpec(files, o);
      r.value <==> ProjectId(files).Some? && AuthSpec(files, o).value.Ok?
    ensures var r := RegisterSpec(files, o);
      r.value ==> (DeviceConfigFile in r.files
        && r.files[DeviceConfigFile] == DeviceDoc(DeviceIdentity(files[CredentialsFile].secret.projectId)))
    ensures var r := RegisterSpec(files, o);
      !r.value ==> ((DeviceConfigFile in r.files <==> DeviceConfigFile in files)
        && (DeviceConfigFile in files ==> r.files[DeviceConfigFile] == files[DeviceConfigFile]))
  {
    AuthTouchesOnlyToken(files, o);
  }

  /** Registration changes `token.json` and `device_config.json` and nothing else. */
  lemma RegisterTouchesOnlyItsFiles(files: FileMap, o: AuthOracle)
    ensures var r := RegisterSpec(files, o);
      forall k :: k != TokenFile && k != DeviceConfigFile ==>
        (k in r.files <==> k in files) && (k in files ==> r.files[k] == files[k])
  {
    AuthTouchesOnlyToken(files, o);
  }

  /** A successful registration leaves the client secret, the device configuration and a token. */
  lemma RegisteredFilesPresent(files: FileMap, o: AuthOracle)
    requires RegisterSpec(files, o).value
    ensures var r := RegisterSpec(files, o).files;
      CredentialsFile in r && DeviceConfigFile in r && TokenFile in r
  {
    RegisterTouchesOnlyItsFiles(files, o);
    var a := AuthSpec(files, o);
    assert TokenFile in a.files;
  }

  /** Without a readable client secret nothing is written and registration fails. */
  lemma NoSecretNoEffect(files: FileMap, o: AuthOracle)
    requires ProjectId(files).None?
    ensures RegisterSpec(files, o) == Effect(false, files)
  {
  }

  /**
    Re-registration is idempotent: a second successful registration, whatever
    the auth outcomes, leaves `device_config.json` with the same contents as
    the first.
   */
  lemma RegisterIdempotent(files: FileMap, o1: AuthOracle, o2: AuthOracle)
    requires RegisterSpec(files, o1).value
    requires RegisterSpec(RegisterSpec(files, o1).files, o2).value
    ensures var first := RegisterSpec(files, o1).files;
      RegisterSpec(first, o2).files[DeviceConfigFile] == first[DeviceConfigFile]
  {
    var first := RegisterSpec(files, o1).files;
    RegisterTouchesOnlyItsFiles(files, o1);
    RegisterWritesDerivedIdentity(files, o1);
    RegisterWritesDerivedIdentity(first, o2);
    assert first[CredentialsFile] == files[CredentialsFile];
  }
}
