/** The context objects the precondition layer inspects, reduced to the fields
    it reads plus the `origin` of the client data, which no validator checks.
    Every Java reference that may be null is an Option. */
module Contexts {
  import opened Wrappers
  import opened JavaTypes
  import opened Authenticator

  /** An attestation statement of some format; its contents and its own
      validation are not part of this model. */
  type AttestationStatement(==)

  datatype ClientDataType = Create | Get

  /** The client data the browser collected for the ceremony. */
  datatype CollectedClientData = CollectedClientData(
    clientDataType: Option<ClientDataType>,
    challenge: Option<seq<byte>>,
    origin: Option<string>)

  datatype AttestationObject = AttestationObject(
    authenticatorData: Option<AuthenticatorData>,
    attestationStatement: Option<AttestationStatement>)

  /** The server-side facts of one ceremony. */
  datatype RelyingParty = RelyingParty(
    origin: Option<string>,
    rpId: Option<string>,
    challenge: Option<seq<byte>>)

  /** What an authentication (assertion) ceremony hands to validation. */
  datatype AuthenticationContext = AuthenticationContext(
    credentialId: Option<seq<byte>>,
    collectedClientData: Option<CollectedClientData>,
    authenticatorData: Option<AuthenticatorData>,
    signature: Option<seq<byte>>,
    relyingParty: Option<RelyingParty>)

  /** What a registration (attestation) ceremony hands to validation. */
  datatype RegistrationContext = RegistrationContext(
    attestationObject: Option<AttestationObject>,
    collectedClientData: Option<CollectedClientData>,
    relyingParty: Option<RelyingParty>)
}
