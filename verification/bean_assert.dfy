/** The fail-fast precondition layer: one validator per context object, each
    checking its fields in a fixed order and reporting the first violation.
    A thrown exception is a `Fail` outcome; returning normally is `Pass`. */
module BeanAssert {
  import opened Wrappers
  import opened JavaTypes
  import opened FailFast
  import opened Authenticator
  import opened Contexts

  /** `ConstraintViolationException`, and its relying-party-ID specialisation
      `BadRpIdException`, with their messages. */
  datatype Violation = ConstraintViolation(message: string) | BadRpId(message: string)

  type Validation = Outcome<Violation>

  /** The largest unsigned 32-bit value, the upper bound of a sign counter. */
  const UnsignedIntMax: int := 0xFFFF_FFFF

  /** The expected lengths of a relying-party-ID hash (SHA-256) and an AAGUID. */
  const RpIdHashLength: nat := 32
  const AaGuidLength: nat := 16

  const CredentialIdNull := "credentialId must not be null"
  const CollectedClientDataNull := "collectedClientData must not be null"
  const AuthenticatorDataNull := "authenticatorData must not be null"
  const SignatureNull := "signature must not be null"
  const RelyingPartyNull := "relyingParty must not be null"
  const AttestationObjectNull := "attestationObject must not be null"
  const ChallengeNull := "challenge must not be null"
  const TypeNull := "type must not be null"
  const AttestationStatementNull := "attestationStatement must not be null"
  const RpIdHashNull := "rpIdHash must not be null"
  const RpIdHashBadLength := "rpIdHash must be 32 bytes length"
  const SignCountOutOfRange := "signCount must be unsigned int"
  const ExtensionsNull := "extensions must not be null"
  const AaGuidNull := "aaGuid must not be null"
  const AaGuidBadLength := "aaGuid must not be 16 bytes length"
  const CredentialPublicKeyNull := "credentialPublicKey must not be null"
  const RpIdNull := "rpId must not be null"
  const OriginNull := "origin must not be null"

  function Violated(message: string): Validation {
    Fail(ConstraintViolation(message))
  }

  /** A non-null array of exactly `n` bytes. */
  predicate HasLength(a: Option<seq<byte>>, n: nat) {
    a.Some? && |a.value| == n
  }

  /** The sign-counter test as written: zero is rejected along with every
      value outside the unsigned 32-bit range. */
  predicate SignCountAccepted(signCount: int64) {
    0 < signCount <= UnsignedIntMax
  }

  // ---------------------------------------------------------------------
  // Authentication context

  /** The checks of the authentication context, in the order they run. */
  function AuthenticationContextSteps(ctx: AuthenticationContext): seq<Validation> {
    [ Need(ctx.credentialId.Some?, ConstraintViolation(CredentialIdNull)),
      Need(ctx.collectedClientData.Some?, ConstraintViolation(CollectedClientDataNull)),
      Need(ctx.authenticatorData.Some?, ConstraintViolation(AuthenticatorDataNull)),
      Need(ctx.signature.Some?, ConstraintViolation(SignatureNull)),
      Need(ctx.relyingParty.Some?, ConstraintViolation(RelyingPartyNull)) ]
  }

  function ValidateAuthenticationContext(ctx: AuthenticationContext): (r: Validation)
    ensures r.Pass? <==>
      && ctx.credentialId.Some?
      && ctx.collectedClientData.Some?
      && ctx.authenticatorData.Some?
      && ctx.signature.Some?
      && ctx.relyingParty.Some?
    ensures r.Fail? ==> r.error.ConstraintViolation?
  {
    if ctx.credentialId.None? then Violated(CredentialIdNull)
    else if ctx.collectedClientData.None? then Violated(CollectedClientDataNull)
    else if ctx.authenticatorData.None? then Violated(AuthenticatorDataNull)
    else if ctx.signature.None? then Violated(SignatureNull)
    else if ctx.relyingParty.None? then Violated(RelyingPartyNull)
    else Pass
  }

  /** The reported violation is that of the first absent field, in the order
      credentialId, collectedClientData, authenticatorData, signature,
      relyingParty. */
  lemma AuthenticationContextChecksInOrder(ctx: AuthenticationContext)
    ensures ValidateAuthenticationContext(ctx) == FirstFailure(AuthenticationContextSteps(ctx))
  {
    var steps := AuthenticationContextSteps(ctx);
    if ctx.credentialId.None? {
      FirstFailureAt(steps, 0);
    } else if ctx.collectedClientData.None? {
      FirstFailureAt(steps, 1);
    } else if ctx.authenticatorData.None? {
      FirstFailureAt(steps, 2);
    } else if ctx.signature.None? {
      FirstFailureAt(steps, 3);
    } else if ctx.relyingParty.None? {
      FirstFailureAt(steps, 4);
    }
  }

  // ---------------------------------------------------------------------
  // Registration context

  function RegistrationContextSteps(ctx: RegistrationContext): seq<Validation> {
    [ Need(ctx.attestationObject.Some?, ConstraintViolation(AttestationObjectNull)),
      Need(ctx.collectedClientData.Some?, ConstraintViolation(CollectedClientDataNull)),
      Need(ctx.relyingParty.Some?, ConstraintViolation(RelyingPartyNull)) ]
  }

  function ValidateRegistrationContext(ctx: RegistrationContext): (r: Validation)
    ensures r.Pass? <==>
      ctx.attestationObject.Some? && ctx.collectedClientData.Some? && ctx.relyingParty.Some?
    ensures r.Fail? ==> r.error.ConstraintViolation?
  {
    if ctx.attestationObject.None? then Violated(AttestationObjectNull)
    else if ctx.collectedClientData.None? then Violated(CollectedClientDataNull)
    else if ctx.relyingParty.None? then Violated(RelyingPartyNull)
    else Pass
  }

  /** The reported violation is that of the first absent field, in the order
      attestationObject, collectedClientData, relyingParty. */
  lemma RegistrationContextChecksInOrder(ctx: RegistrationContext)
    ensures ValidateRegistrationContext(ctx) == FirstFailure(RegistrationContextSteps(ctx))
  {
    var steps := RegistrationContextSteps(ctx);
    if ctx.attestationObject.None? {
      FirstFailureAt(steps, 0);
    } else if ctx.collectedClientData.None? {
      FirstFailureAt(steps, 1);
    } else if ctx.relyingParty.None? {
      FirstFailureAt(steps, 2);
    }
  }

  // ---------------------------------------------------------------------
  // Collected client data

  function CollectedClientDataSteps(cd: CollectedClientData): seq<Validation> {
    [ Need(cd.challenge.Some?, ConstraintViolation(ChallengeNull)),
      Need(cd.clientDataType.Some?, ConstraintViolation(TypeNull)) ]
  }

  function ValidateCollectedClientData(cd: CollectedClientData): (r: Validation)
    ensures r.Pass? <==> cd.challenge.Some? && cd.clientDataType.Some?
    ensures r.Fail? ==> r.error.ConstraintViolation?
  {
    if cd.challenge.None? then Violated(ChallengeNull)
    else if cd.clientDataType.None? then Violated(TypeNull)
    else Pass
  }

  /** Challenge first, then type; the origin is not checked. */
  lemma CollectedClientDataChecksInOrder(cd: CollectedClientData)
    ensures ValidateCollectedClientData(cd) == FirstFailure(CollectedClientDataSteps(cd))
  {
    var steps := CollectedClientDataSteps(cd);
    if cd.challenge.None? {
      FirstFailureAt(steps, 0);
    } else if cd.clientDataType.None? {
      FirstFailureAt(steps, 1);
    }
  }

  /** With both challenge and type missing, the challenge is reported. */
  lemma MissingChallengeReportedBeforeType(cd: CollectedClientData)
    requires cd.challenge.None? && cd.clientDataType.None?
    ensures ValidateCollectedClientData(cd) == Violated(ChallengeNull)
  {
  }

  // ---------------------------------------------------------------------
  // Attestation object

  function AttestationObjectSteps(ao: AttestationObject): seq<Validation> {
    [ Need(ao.attestationStatement.Some?, ConstraintViolation(AttestationStatementNull)),
      Need(ao.authenticatorData.Some?, ConstraintViolation(AuthenticatorDataNull)) ]
  }

  /** Only presence is checked: neither the statement nor the authenticator
      data is validated further here. */
  function ValidateAttestationObject(ao: AttestationObject): (r: Validation)
    ensures r.Pass? <==> ao.attestationStatement.Some? && ao.authenticatorData.Some?
    ensures r.Fail? ==> r.error.ConstraintViolation?
  {
    if ao.attestationStatement.None? then Violated(AttestationStatementNull)
    else if ao.authenticatorData.None? then Violated(AuthenticatorDataNull)
    else Pass
  }

  /** Statement first, then authenticator data. */
  lemma AttestationObjectChecksInOrder(ao: AttestationObject)
    ensures ValidateAttestationObject(ao) == FirstFailure(AttestationObjectSteps(ao))
  {
    var steps := AttestationObjectSteps(ao);
    if ao.attestationStatement.None? {
      FirstFailureAt(steps, 0);
    } else if ao.authenticatorData.None? {
      FirstFailureAt(steps, 1);
    }
  }

  // ---------------------------------------------------------------------
  // Attested credential data

  /** A credential public key's own structural validation, which either
      accepts the key or reports a constraint violation with a message. */
  type KeyValidation = CredentialPublicKey -> Outcome<string>

  function ValidateCredentialPublicKey(validateKey: KeyValidation, key: CredentialPublicKey): (r: Validation)
    ensures r.Pass? <==> validateKey(key).Pass?
    ensures r.Fail? ==> r == Violated(validateKey(key).error)
  {
    match validateKey(key)
    case Pass => Pass
    case Fail(message) => Violated(message)
  }

  function AttestedCredentialDataSteps(validateKey: KeyValidation, acd: AttestedCredentialData): seq<Validation> {
    [ Need(acd.aaGuid.Some?, ConstraintViolation(AaGuidNull)),
      Need(HasLength(acd.aaGuid, AaGuidLength), ConstraintViolation(AaGuidBadLength)),
      Need(acd.credentialId.Some?, ConstraintViolation(CredentialIdNull)),
      Need(acd.credentialPublicKey.Some?, ConstraintViolation(CredentialPublicKeyNull)),
      if acd.credentialPublicKey.Some?
      then ValidateCredentialPublicKey(validateKey, acd.credentialPublicKey.value)
      else Pass ]
  }

  /** Accepted exactly when the AAGUID is 16 bytes, the credential ID is
      present and the public key is present and passes its own validation. */
  predicate AttestedCredentialDataAcceptable(validateKey: KeyValidation, acd: AttestedCredentialData) {
    && HasLength(acd.aaGuid, AaGuidLength)
    && acd.credentialId.Some?
    && acd.credentialPublicKey.Some?
    && validateKey(acd.credentialPublicKey.value).Pass?
  }

  function ValidateAttestedCredentialData(validateKey: KeyValidation, acd: AttestedCredentialData): (r: Validation)
    ensures r.Pass? <==> AttestedCredentialDataAcceptable(validateKey, acd)
    ensures r.Fail? ==> r.error.ConstraintViolation?
  {
    if acd.aaGuid.None? then Violated(AaGuidNull)
    else if |acd.aaGuid.value| != AaGuidLength then Violated(AaGuidBadLength)
    else if acd.credentialId.None? then Violated(CredentialIdNull)
    else if acd.credentialPublicKey.None? then Violated(CredentialPublicKeyNull)
    else ValidateCredentialPublicKey(validateKey, acd.credentialPublicKey.value)
  }

  /** AAGUID presence, AAGUID length, credential ID, public key presence, and
      finally the key's own validation. */
  lemma AttestedCredentialDataChecksInOrder(validateKey: KeyValidation, acd: AttestedCredentialData)
    ensures ValidateAttestedCredentialData(validateKey, acd)
         == FirstFailure(AttestedCredentialDataSteps(validateKey, acd))
  {
    var steps := AttestedCredentialDataSteps(validateKey, acd);
    if acd.aaGuid.None? {
      FirstFailureAt(steps, 0);
    } else if |acd.aaGuid.value| != AaGuidLength {
      FirstFailureAt(steps, 1);
    } else if acd.credentialId.None? {
      FirstFailureAt(steps, 2);
    } else if acd.credentialPublicKey.None? {
      FirstFailureAt(steps, 3);
    } else if validateKey(acd.credentialPublicKey.value).Fail? {
      FirstFailureAt(steps, 4);
    }
  }

  // ---------------------------------------------------------------------
  // Authenticator data

  /** Attested credential data is validated only when present. */
  function CredentialDataStep(validateKey: KeyValidation, ad: AuthenticatorData): Validation {
    if ad.attestedCredentialData.Some?
    then ValidateAttestedCredentialData(validateKey, ad.attestedCredentialData.value)
    else Pass
  }

  function AuthenticatorDataSteps(validateKey: KeyValidation, ad: AuthenticatorData): seq<Validation> {
    [ CredentialDataStep(validateKey, ad),
      Need(ad.rpIdHash.Some?, ConstraintViolation(RpIdHashNull)),
      Need(HasLength(ad.rpIdHash, RpIdHashLength), BadRpId(RpIdHashBadLength)),
      Need(SignCountAccepted(ad.signCount), ConstraintViolation(SignCountOutOfRange)),
      Need(ad.extensions.Some?, ConstraintViolation(ExtensionsNull)) ]
  }

  /** Each extension is then validated, and that validation accepts every
      extension, so the step over the extension list never fails. */
  function ValidateAuthenticatorData(validateKey: KeyValidation, ad: AuthenticatorData): (r: Validation)
    ensures ad.attestedCredentialData.Some?
            && ValidateAttestedCredentialData(validateKey, ad.attestedCredentialData.value).Fail?
            ==> r == ValidateAttestedCredentialData(validateKey, ad.attestedCredentialData.value)
    ensures r.Pass? <==>
      && (ad.attestedCredentialData.None?
          || AttestedCredentialDataAcceptable(validateKey, ad.attestedCredentialData.value))
      && HasLength(ad.rpIdHash, RpIdHashLength)
      && SignCountAccepted(ad.signCount)
      && ad.extensions.Some?
    ensures (r.Fail? && r.error.BadRpId?) <==>
      && CredentialDataStep(validateKey, ad).Pass?
      && ad.rpIdHash.Some?
      && |ad.rpIdHash.value| != RpIdHashLength
  {
    var acd := ad.attestedCredentialData;
    var credentialData := if acd.Some? then ValidateAttestedCredentialData(validateKey, acd.value) else Pass;
    if credentialData.Fail? then credentialData
    else if ad.rpIdHash.None? then Violated(RpIdHashNull)
    else if |ad.rpIdHash.value| != RpIdHashLength then Fail(BadRpId(RpIdHashBadLength))
    else if ad.signCount <= 0 || ad.signCount > UnsignedIntMax then Violated(SignCountOutOfRange)
    else if ad.extensions.None? then Violated(ExtensionsNull)
    else Pass
  }

  /** Attested credential data (when present), rpIdHash presence, rpIdHash
      length, sign counter range, extension list presence. */
  lemma AuthenticatorDataChecksInOrder(validateKey: KeyValidation, ad: AuthenticatorData)
    ensures ValidateAuthenticatorData(validateKey, ad) == FirstFailure(AuthenticatorDataSteps(validateKey, ad))
  {
    var steps := AuthenticatorDataSteps(validateKey, ad);
    if CredentialDataStep(validateKey, ad).Fail? {
      FirstFailureAt(steps, 0);
    } else if ad.rpIdHash.None? {
      FirstFailureAt(steps, 1);
    } else if |ad.rpIdHash.value| != RpIdHashLength {
      FirstFailureAt(steps, 2);
    } else if !SignCountAccepted(ad.signCount) {
      FirstFailureAt(steps, 3);
    } else if ad.extensions.None? {
      FirstFailureAt(steps, 4);
    }
  }

  /** A counter of 0 is rejected even when everything checked before it is
      fine (a well-formed relying-party-ID hash, and attested credential data
      that is absent or valid), although authenticators without a counter
      always report 0. */
  lemma ZeroSignCountRejected(validateKey: KeyValidation, ad: AuthenticatorData)
    requires CredentialDataStep(validateKey, ad).Pass? && HasLength(ad.rpIdHash, RpIdHashLength)
    requires ad.signCount == 0
    ensures ValidateAuthenticatorData(validateKey, ad) == Violated(SignCountOutOfRange)
  {
  }

  /** A value built by the five-argument constructor always has a non-null
      extension list, so the last of the five checks never fails and it is
      accepted as soon as its hash, counter and credential data are. */
  lemma ConstructedAuthenticatorData(
    validateKey: KeyValidation,
    rpIdHash: Option<seq<byte>>,
    flags: byte,
    counter: int64,
    acd: Option<AttestedCredentialData>,
    extensions: Option<seq<Extension>>)
    ensures var ad := NewAuthenticatorData(rpIdHash, flags, counter, acd, extensions);
      && ad.extensions.Some?
      && (ValidateAuthenticatorData(validateKey, ad).Pass? <==>
            && (acd.None? || AttestedCredentialDataAcceptable(validateKey, acd.value))
            && HasLength(rpIdHash, RpIdHashLength)
            && SignCountAccepted(counter))
  {
    var ad := NewAuthenticatorData(rpIdHash, flags, counter, acd, extensions);
    AuthenticatorDataChecksInOrder(validateKey, ad);
  }

  /** The flags are not compared with the fields they describe: a value whose
      AT flag claims attested credential data but carries none, and whose ED
      flag claims extensions but carries an empty list, is accepted. */
  lemma FlagsNotCheckedAgainstFields(validateKey: KeyValidation)
    ensures var ad := AuthenticatorData(Some(seq(RpIdHashLength, i => 0)), BitAT | BitED, 1, None, Some([]));
      && IsFlagAT(ad) && ad.attestedCredentialData.None?
      && IsFlagED(ad) && ad.extensions == Some([])
      && ValidateAuthenticatorData(validateKey, ad).Pass?
  {
  }

  // ---------------------------------------------------------------------
  // Relying party

  function RelyingPartySteps(rp: RelyingParty): seq<Validation> {
    [ Need(rp.rpId.Some?, ConstraintViolation(RpIdNull)),
      Need(rp.challenge.Some?, ConstraintViolation(ChallengeNull)),
      Need(rp.origin.Some?, ConstraintViolation(OriginNull)) ]
  }

  function ValidateRelyingParty(rp: RelyingParty): (r: Validation)
    ensures r.Pass? <==> rp.rpId.Some? && rp.challenge.Some? && rp.origin.Some?
    ensures r.Fail? ==> r.error.ConstraintViolation?
  {
    if rp.rpId.None? then Violated(RpIdNull)
    else if rp.challenge.None? then Violated(ChallengeNull)
    else if rp.origin.None? then Violated(OriginNull)
    else Pass
  }

  /** rpId, then challenge, then origin. */
  lemma RelyingPartyChecksInOrder(rp: RelyingParty)
    ensures ValidateRelyingParty(rp) == FirstFailure(RelyingPartySteps(rp))
  {
    var steps := RelyingPartySteps(rp);
    if rp.rpId.None? {
      FirstFailureAt(steps, 0);
    } else if rp.challenge.None? {
      FirstFailureAt(steps, 1);
    } else if rp.origin.None? {
      FirstFailureAt(steps, 2);
    }
  }

  // ---------------------------------------------------------------------
  // Attestation statement

  /** An attestation statement's own validation, reporting a violation message. */
  type StatementValidation = AttestationStatement -> Outcome<string>

  /** Delegates entirely to the statement's own validation. */
  function ValidateAttestationStatement(validateStatement: StatementValidation, s: AttestationStatement): (r: Validation)
    ensures r.Pass? <==> validateStatement(s).Pass?
    ensures r.Fail? ==> r == Violated(validateStatement(s).error)
  {
    match validateStatement(s)
    case Pass => Pass
    case Fail(message) => Violated(message)
  }
}
