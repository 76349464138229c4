# WebAuthn precondition layer and authenticator data, in Dafny

This project models two pieces of webauthn4j.

The first is `AuthenticatorData`. It is the parsed form of an
authenticator's response and follows the byte layout of section 6.1 of the W3C
Web Authentication Level 1 Recommendation. It holds:

- a relying-party-ID hash;
- a flags byte, with UP at bit 0, UV at bit 2, AT at bit 6 and ED at bit 7;
- a signature counter;
- optional attested credential data;
- a list of extension outputs.

The second is `BeanAssertUtil`, the fail-fast precondition layer. It has one
validator per context object: authentication context, registration context,
collected client data, attestation object, authenticator data, attested
credential data, relying party and attestation statement. Each validator checks
its fields in a fixed order. It throws `ConstraintViolationException` on the
first violation, or `BadRpIdException` when the rpIdHash has the wrong length.

Modelling choices:

- A Java reference that may be null is an `Option`.
- A `void` validator is a function returning `Outcome<Violation>`. `Pass` means
  it returned normally. `Fail(v)` means it threw `v`. The argument itself is
  never null (see "## Left out").
- A Java `byte` is a `bv8` bit pattern.
- `int` and `long` are integer subset types. The wrapping arithmetic of
  `hashCode` is written out explicitly with `Wrap32`.
- The order of checks is stated twice. Each validator is a chain of `if`s in
  the source's order. A separate declarative list of steps (`…Steps`) is run by
  the generic `FailFast.FirstFailure`, and a `…ChecksInOrder` lemma proves that
  the two agree on every input.
- Code that is not part of this model is passed in as a parameter:
  - `CredentialPublicKey.validate()` and `AttestationStatement.validate()`,
    each accepting or reporting a violation message;
  - the `hashCode` of `AttestedCredentialData` and of an extension.

Modules and files:

| file | module | contents |
|---|---|---|
| wrappers.dfy | `Wrappers` | `Option`, `Outcome`, `Need` |
| java_types.dfy | `JavaTypes` | `byte`, `int32`, `int64`, sign extension, wrapping, `long` hash |
| java_hash.dfy | `JavaHash` | `Arrays.hashCode` / `List.hashCode` fold and its closed form |
| fail_fast.dfy | `FailFast` | first-failure semantics of an ordered list of checks |
| authenticator.dfy | `Authenticator` | `AuthenticatorData`, flags, constructor, `equals`, `hashCode` |
| contexts.dfy | `Contexts` | client data, relying party, attestation object, contexts |
| bean_assert.dfy | `BeanAssert` | the validators and their properties |

## Observations on the code

- The counter check rejects 0 (`signCount <= 0`). Authenticators that do not
  keep a counter always report 0. The model keeps the check as written, and
  `BeanAssert.ZeroSignCountRejected` states the consequence.
- Section 6.1 of the Web Authentication Recommendation ties the AT flag to the
  presence of attested credential data and the ED flag to extension data. The
  validator compares neither flag with the field it describes.
  `BeanAssert.FlagsNotCheckedAgainstFields` exhibits an accepted value that has
  AT and ED set, no credential data and an empty extension list.
- The message for a wrong-length AAGUID reads "aaGuid must not be 16 bytes
  length". The check behind it rejects every length except 16. The model keeps
  the message verbatim.
- `UnsignedNumberUtil` is not part of this model. `UNSIGNED_INT_MAX` is taken to
  be 2^32 - 1, the largest unsigned 32-bit value.

## Model

| member | source | states |
|---|---|---|
| `FailFast.FirstFailure` | webauthn4j-core/src/main/java/com/webauthn4j/validator/BeanAssertUtil.java:26-42 | running checks in order passes iff every check passes; a failure is the error of some check that fails while all earlier ones pass |
| `FailFast.FirstFailureAt` | webauthn4j-core/src/main/java/com/webauthn4j/validator/BeanAssertUtil.java:26-42 | when check i is the first to fail, its error is exactly the one reported |
| `BeanAssert.ValidateAuthenticationContext` | webauthn4j-core/src/main/java/com/webauthn4j/validator/BeanAssertUtil.java:26-42 | accepts iff credentialId, collectedClientData, authenticatorData, signature and relyingParty are all present; every failure is a constraint violation |
| `BeanAssert.AuthenticationContextChecksInOrder` | webauthn4j-core/src/main/java/com/webauthn4j/validator/BeanAssertUtil.java:26-42 | the reported error is that of the first absent field in the order credentialId, collectedClientData, authenticatorData, signature, relyingParty |
| `BeanAssert.ValidateRegistrationContext` | webauthn4j-core/src/main/java/com/webauthn4j/validator/BeanAssertUtil.java:44-54 | accepts iff attestationObject, collectedClientData and relyingParty are present; failures are constraint violations |
| `BeanAssert.RegistrationContextChecksInOrder` | webauthn4j-core/src/main/java/com/webauthn4j/validator/BeanAssertUtil.java:44-54 | the reported error is that of the first absent field in the order attestationObject, collectedClientData, relyingParty |
| `BeanAssert.ValidateCollectedClientData` | webauthn4j-core/src/main/java/com/webauthn4j/validator/BeanAssertUtil.java:56-63 | accepts iff challenge and type are present; the origin is not examined |
| `BeanAssert.CollectedClientDataChecksInOrder` | webauthn4j-core/src/main/java/com/webauthn4j/validator/BeanAssertUtil.java:56-63 | challenge is checked before type |
| `BeanAssert.MissingChallengeReportedBeforeType` | webauthn4j-core/src/main/java/com/webauthn4j/validator/BeanAssertUtil.java:57-59 | with both challenge and type missing, the challenge error is the one reported |
| `BeanAssert.ValidateAttestationObject` | webauthn4j-core/src/main/java/com/webauthn4j/validator/BeanAssertUtil.java:65-72 | accepts iff the attestation statement and the authenticator data are present; their contents are not validated here |
| `BeanAssert.AttestationObjectChecksInOrder` | webauthn4j-core/src/main/java/com/webauthn4j/validator/BeanAssertUtil.java:65-72 | statement presence is checked before authenticator-data presence |
| `BeanAssert.ValidateAuthenticatorData` | webauthn4j-core/src/main/java/com/webauthn4j/validator/BeanAssertUtil.java:74-100 | a failure of present credential data is reported first and unchanged; accepts iff credential data is absent or acceptable, the hash has 32 bytes, 0 < signCount <= 2^32-1 and extensions are non-null; the BadRpId error arises exactly when the credential step passes and a non-null hash has another length |
| `BeanAssert.AuthenticatorDataChecksInOrder` | webauthn4j-core/src/main/java/com/webauthn4j/validator/BeanAssertUtil.java:74-100 | check order: credential data (only when present), hash presence, hash length, counter range, extension-list presence |
| `BeanAssert.ZeroSignCountRejected` | webauthn4j-core/src/main/java/com/webauthn4j/validator/BeanAssertUtil.java:90-93 | a counter of 0 is rejected with the counter error whenever the relying-party-ID hash and the attested credential data pass, whether the credential data is absent or present and valid |
| `BeanAssert.FlagsNotCheckedAgainstFields` | webauthn4j-core/src/main/java/com/webauthn4j/validator/BeanAssertUtil.java:74-100 | a value with AT and ED set but no credential data and an empty extension list is accepted |
| `BeanAssert.ConstructedAuthenticatorData` | webauthn4j-core/src/main/java/com/webauthn4j/attestation/authenticator/AuthenticatorData.java:43-54 | a constructor-built value always has a non-null extension list, and is accepted iff its credential data, hash length and counter are acceptable |
| `BeanAssert.ValidateAttestedCredentialData` | webauthn4j-core/src/main/java/com/webauthn4j/validator/BeanAssertUtil.java:102-121 | accepts iff the AAGUID has exactly 16 bytes, the credential ID is present and the public key is present and passes its own validation; never a BadRpId error |
| `BeanAssert.AttestedCredentialDataChecksInOrder` | webauthn4j-core/src/main/java/com/webauthn4j/validator/BeanAssertUtil.java:102-121 | check order: AAGUID presence, AAGUID length, credential ID presence, public key presence, the key's own validation |
| `BeanAssert.ValidateCredentialPublicKey` | webauthn4j-core/src/main/java/com/webauthn4j/validator/BeanAssertUtil.java:122-125 | passes iff the key's own validation passes, and reports its message unchanged as a constraint violation otherwise |
| `BeanAssert.ValidateRelyingParty` | webauthn4j-core/src/main/java/com/webauthn4j/validator/BeanAssertUtil.java:131-141 | accepts iff rpId, challenge and origin are present |
| `BeanAssert.RelyingPartyChecksInOrder` | webauthn4j-core/src/main/java/com/webauthn4j/validator/BeanAssertUtil.java:131-141 | check order: rpId, challenge, origin |
| `BeanAssert.ValidateAttestationStatement` | webauthn4j-core/src/main/java/com/webauthn4j/validator/BeanAssertUtil.java:143-145 | passes iff the statement's own validation passes, and reports its message unchanged as a constraint violation otherwise |
| `Authenticator.CheckFlagUP` | webauthn4j-core/src/main/java/com/webauthn4j/attestation/authenticator/AuthenticatorData.java:125-127 | the sign-extended mask test holds iff bit 0 of the flags byte is set |
| `Authenticator.CheckFlagUV` | webauthn4j-core/src/main/java/com/webauthn4j/attestation/authenticator/AuthenticatorData.java:129-131 | holds iff bit 2 is set |
| `Authenticator.CheckFlagAT` | webauthn4j-core/src/main/java/com/webauthn4j/attestation/authenticator/AuthenticatorData.java:133-135 | holds iff bit 6 is set |
| `Authenticator.CheckFlagED` | webauthn4j-core/src/main/java/com/webauthn4j/attestation/authenticator/AuthenticatorData.java:137-139 | holds iff bit 7 is set, which is exactly when the flags byte is negative as a Java byte |
| `Authenticator.CheckFlag` | webauthn4j-core/src/main/java/com/webauthn4j/attestation/authenticator/AuthenticatorData.java:125-139 | each flag test, done on int-widened operands, agrees with a plain byte-wide AND against the flag's mask |
| `Authenticator.IsFlagUP` | webauthn4j-core/src/main/java/com/webauthn4j/attestation/authenticator/AuthenticatorData.java:66-68 | the instance test holds iff bit 0 of the stored flags byte is set |
| `Authenticator.IsFlagUV` | webauthn4j-core/src/main/java/com/webauthn4j/attestation/authenticator/AuthenticatorData.java:70-72 | holds iff bit 2 of the stored flags is set |
| `Authenticator.IsFlagAT` | webauthn4j-core/src/main/java/com/webauthn4j/attestation/authenticator/AuthenticatorData.java:74-76 | holds iff bit 6 of the stored flags is set |
| `Authenticator.IsFlagED` | webauthn4j-core/src/main/java/com/webauthn4j/attestation/authenticator/AuthenticatorData.java:78-80 | holds iff bit 7 of the stored flags is set |
| `Authenticator.SetFlagIsolated` | webauthn4j-core/src/main/java/com/webauthn4j/attestation/authenticator/AuthenticatorData.java:125-139 | setting one flag's bit makes that flag test true and leaves the other three tests unchanged |
| `Authenticator.ClearFlagIsolated` | webauthn4j-core/src/main/java/com/webauthn4j/attestation/authenticator/AuthenticatorData.java:125-139 | clearing one flag's bit makes that flag test false and leaves the other three tests unchanged |
| `Authenticator.NewAuthenticatorData` | webauthn4j-core/src/main/java/com/webauthn4j/attestation/authenticator/AuthenticatorData.java:43-54 | hash, flags, counter and credential data are stored unchanged; the stored extension list is never null; a null list becomes empty and a non-null one is kept |
| `Authenticator.ArraysEquals` | webauthn4j-core/src/main/java/com/webauthn4j/attestation/authenticator/AuthenticatorData.java:106 | element-wise, null-aware array comparison holds iff the two arrays are the same value |
| `Authenticator.Equals` | webauthn4j-core/src/main/java/com/webauthn4j/attestation/authenticator/AuthenticatorData.java:97-110 | the field-by-field comparison holds iff the two values agree on every field |
| `Authenticator.NullableEquals` | webauthn4j-core/src/main/java/com/webauthn4j/attestation/authenticator/AuthenticatorData.java:107-109 | the null-aware comparison of credential data and of extension lists holds iff both are null or both are non-null and equal, i.e. iff the two nullable values are the same value |
| `Authenticator.EqualsIsEquivalence` | webauthn4j-core/src/main/java/com/webauthn4j/attestation/authenticator/AuthenticatorData.java:97-110 | equality is reflexive, symmetric and transitive |
| `Authenticator.EqualsConsistentWithHashCode` | webauthn4j-core/src/main/java/com/webauthn4j/attestation/authenticator/AuthenticatorData.java:116-123 | equal values have equal hash codes, whatever hash codes the collaborators have |
| `Authenticator.HashCode` | webauthn4j-core/src/main/java/com/webauthn4j/attestation/authenticator/AuthenticatorData.java:116-123 | no contract of its own: `hashCode` as the fold over the five field hashes; its meaning is stated by `Authenticator.HashCodeClosedForm` and `Authenticator.EqualsConsistentWithHashCode` |
| `Authenticator.HashCodeClosedForm` | webauthn4j-core/src/main/java/com/webauthn4j/attestation/authenticator/AuthenticatorData.java:116-123 | the wrapping fold equals 31^4·hash(rpIdHash) + 31^3·flags + 31^2·hash(counter) + 31·hash(credential data) + hash(extensions), reduced once to an int |
| `Authenticator.FoldOfFive` | webauthn4j-core/src/main/java/com/webauthn4j/attestation/authenticator/AuthenticatorData.java:116-123 | the four wrapping `31 * result + field` steps over five field hashes equal the exact weighted sum 31^4·a + 31^3·b + 31^2·c + 31·d + e, reduced once to an int |
| `Authenticator.HashCodeOfUnsignedCounter` | webauthn4j-core/src/main/java/com/webauthn4j/attestation/authenticator/AuthenticatorData.java:116-123 | for a non-null hash and a counter below 2^32, the hash reads directly from the byte polynomial and the counter value |
| `JavaHash.HashFoldClosedForm` | webauthn4j-core/src/main/java/com/webauthn4j/attestation/authenticator/AuthenticatorData.java:117-121 | the wrapping `31 * h + x` fold from 1 equals 31^n + Σ 31^(n-1-i)·x_i reduced once to an int |
| `JavaTypes.Wrap32Step` | webauthn4j-core/src/main/java/com/webauthn4j/attestation/authenticator/AuthenticatorData.java:118-121 | wrapping after each `31 * h + x` step gives the same int as wrapping once at the end |
| `JavaTypes.LongHashOfUnsignedInt` | webauthn4j-core/src/main/java/com/webauthn4j/attestation/authenticator/AuthenticatorData.java:119 | for 0 <= v < 2^32, `(int)(v ^ (v >>> 32))` is v read as an int |
| `JavaTypes.LongHash` | webauthn4j-core/src/main/java/com/webauthn4j/attestation/authenticator/AuthenticatorData.java:119 | no contract of its own: `(int) (v ^ (v >>> 32))` on the two's-complement pattern of a `long`; its meaning for counters below 2^32 is stated by `JavaTypes.LongHashOfUnsignedInt` |
| `JavaHash.ArraysHashCode` | webauthn4j-core/src/main/java/com/webauthn4j/attestation/authenticator/AuthenticatorData.java:117 | no contract of its own: `Arrays.hashCode(byte[])`, 0 for null and otherwise the fold over the signed bytes; its closed form is stated by `JavaHash.HashFoldClosedForm` |
| `JavaHash.ListHashCode` | webauthn4j-core/src/main/java/com/webauthn4j/attestation/authenticator/AuthenticatorData.java:121 | no contract of its own: `List.hashCode()` of the non-null extension list, the same fold over the elements' hashes; its closed form is stated by `JavaHash.HashFoldClosedForm` |
| `JavaTypes.SignedByte` | webauthn4j-core/src/main/java/com/webauthn4j/attestation/authenticator/AuthenticatorData.java:118 | widening a byte to int gives a value in [-128, 128) congruent to its bit pattern modulo 256, negative iff the top bit is set |

## Left out

- The no-argument constructor exists only for serialisation frameworks. Any
  field combination it could produce, including null extensions, is already a
  value of the `AuthenticatorData` datatype.
- `validate(Extension)` does nothing. The loop over the extension list therefore
  always passes and is not written out.
- The internals of `CredentialPublicKey.validate()` and
  `AttestationStatement.validate()` are not part of this model. Each is a
  function parameter that accepts or reports a message. A failure is reported
  as a constraint violation.
- `BeanAssert.ValidateAttestationStatement` and
  `BeanAssert.ValidateCredentialPublicKey` only delegate to the statement's or
  the key's own validation. Their contracts state that delegation and nothing
  about the formats themselves.
- `rpIdHash` and the extension list are stored and returned by reference, with
  no defensive copy (AuthenticatorData.java:44, :52, :58-60, :90-92). In Java a
  caller can change them after construction, or after validation has passed,
  and so change what `equals`, `hashCode` and the validator see. Here they are
  values, so the model is immutable, and it does not model that aliasing.
- The classes and `equals` / `hashCode` of `AttestedCredentialData`, `Extension`
  and `CredentialPublicKey` are not part of this model.
  - Their equality is Dafny value equality.
  - Their hash codes are parameters (`Authenticator.Hashers`).
  - A null element inside the extension list is not modelled.
- `equals(Object)` also has a reference-identity shortcut and an `instanceof`
  test. The typed model has no aliasing and no foreign objects, so neither
  appears.
- The context classes, `CollectedClientData` and `RelyingParty` keep only the
  fields the validators read, plus the `origin` of the client data, which no
  validator checks. Token binding is not modelled.
- A null argument to a validator itself is not modelled. In Java,
  `validate(null)` dereferences its argument before any assertion and throws a
  `NullPointerException` rather than a `ConstraintViolationException`
  (BeanAssertUtil.java:27, :77, :144). Each validator here takes a non-null
  value. A null field inside that value is modelled.
- Idempotence of the validators holds by construction. Each validator is a pure
  function, so a second call on the same value returns the same outcome. No
  separate lemma states it.
- These lie outside the precondition layer and are not modelled: signature
  verification, certificate chains, SHA-256, CBOR decoding, challenge
  consumption, counter storage and the Spring configuration.
