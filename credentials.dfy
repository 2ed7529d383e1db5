/**
  The OAuth2 credential as both `authenticate` functions build it, and the
  two ways they obtain one without asking the auth library anything:
  loading the saved token pair, and the installed-app consent flow.
 */
module Credentials {
  import opened Wrappers
  import opened Files

  /** A `google.oauth2.credentials.Credentials`: the token pair and the client it was issued to. */
  datatype Credential = Credential(pair: TokenPair, client: ClientSecret)

  /**
    The token response `creds.refresh` receives: a new access token, and a new
    refresh token when the server rotates it.
   */
  datatype RefreshGrant = RefreshGrant(accessToken: string, rotated: Option<string>)

  /** What the auth library and the user answer; none of it is computed by the core. */
  datatype AuthOracle = AuthOracle(
    valid: bool,                       // `creds.valid` of the credential loaded from `token.json`
    expired: bool,                     // `creds.expired` of that credential
    refreshed: Option<RefreshGrant>,   // the response `creds.refresh` obtains; None: it raised
    consent: Option<TokenPair>         // the pair `flow.run_local_server` returns; None: it raised
  )

  /**
    The pair a refreshed credential holds: the new access token, and the old
    refresh token unless the response carried a new one.
   */
  function Refreshed(pair: TokenPair, g: RefreshGrant): TokenPair {
    TokenPair(g.accessToken, if g.rotated.Some? then g.rotated.value else pair.refreshToken)
  }

  datatype AuthError = RefreshFailed | ConsentFailed

  /** The client section of `credentials.json`, if that file is there and readable. */
  function ClientOf(files: FileMap): Option<ClientSecret> {
    if CredentialsFile in files && files[CredentialsFile].SecretDoc? then Some(files[CredentialsFile].secret) else None
  }

  /**
    The credential built from `token.json` and `credentials.json`; None when
    either is missing or unreadable (the `try` block raising).
   */
  function LoadSaved(files: FileMap): Option<Credential> {
    if TokenFile in files && files[TokenFile].TokenDoc? && ClientOf(files).Some? then
      Some(Credential(files[TokenFile].pair, ClientOf(files).value))
    else None
  }

  /**
    `InstalledAppFlow.from_client_secrets_file('credentials.json')` followed by
    `run_local_server`: None when the secret file cannot be read or the flow raises.
   */
  function Consent(files: FileMap, o: AuthOracle): Option<Credential> {
    match (ClientOf(files), o.consent)
    case (Some(c), Some(p)) => Some(Credential(p, c))
    case _ => None
  }

  /**
    `token.json` as it is rewritten after a (re)issuance: exactly `{token,
    refresh_token}`. Loading it back gives the same pair with the unchanged
    client secret, so a saved credential survives to the next run.
   */
  function Persisted(files: FileMap, c: Credential): (r: FileMap)
    ensures ClientOf(r) == ClientOf(files)
    ensures LoadSaved(r).Some? <==> ClientOf(files).Some?
    ensures LoadSaved(r).Some? ==> LoadSaved(r).value == Credential(c.pair, ClientOf(files).value)
  {
    files[TokenFile := TokenDoc(c.pair)]
  }
}
