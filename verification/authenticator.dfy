/** The parsed authenticator data of a WebAuthn response (the byte layout of
    section 6.1 of the W3C Web Authentication Level 1 Recommendation) and the
    attested credential data it may embed. */
module Authenticator {
  import opened Wrappers
  import opened JavaTypes
  import opened JavaHash

  /** A credential public key. Its variants and their own structural
      validation are not part of this model. */
  type CredentialPublicKey(==)

  /** One authenticator extension output; its contents are not inspected. */
  type Extension(==)

  datatype AttestedCredentialData = AttestedCredentialData(
    aaGuid: Option<seq<byte>>,
    credentialId: Option<seq<byte>>,
    credentialPublicKey: Option<CredentialPublicKey>)

  // Flag masks of the authenticator data's flags byte.
  const BitUP: byte := 0x01
  const BitUV: byte := 0x04
  const BitAT: byte := 0x40
  const BitED: byte := 0x80

  /** Bit `k` of `b`, counting from the least significant: the bit that
      shifting right by `k` brings to the bottom. */
  predicate BitSet(b: byte, k: nat)
    requires k < 8
  {
    (b >> k) & 1 == 1
  }

  /** Java widens a `byte` operand of `&` to `int` by sign extension. */
  function SignExtend(b: byte): bv32 {
    if b & 0x80 == 0 then b as bv32 else (b as bv32) | 0xFFFF_FF00
  }

  /** Java's `(flags & mask) != 0`, evaluated on the widened operands. */
  predicate TestMask(flags: byte, mask: byte) {
    SignExtend(flags) & SignExtend(mask) != 0
  }

  /** User Present: bit 0. */
  function CheckFlagUP(flags: byte): (r: bool)
    ensures r <==> BitSet(flags, 0)
  {
    TestMask(flags, BitUP)
  }

  /** User Verified: bit 2. */
  function CheckFlagUV(flags: byte): (r: bool)
    ensures r <==> BitSet(flags, 2)
  {
    TestMask(flags, BitUV)
  }

  /** Attested credential data included: bit 6. */
  function CheckFlagAT(flags: byte): (r: bool)
    ensures r <==> BitSet(flags, 6)
  {
    TestMask(flags, BitAT)
  }

  /** Extension data included: bit 7, the sign bit of the Java byte, so it is
      set exactly when the byte is negative. */
  function CheckFlagED(flags: byte): (r: bool)
    ensures r <==> BitSet(flags, 7)
    ensures r <==> SignedByte(flags) < 0
  {
    TestMask(flags, BitED)
  }

  /** The four flags, for stating facts about all of them at once. */
  datatype Flag = UP | UV | AT | ED

  function Mask(flag: Flag): byte {
    match flag
    case UP => BitUP
    case UV => BitUV
    case AT => BitAT
    case ED => BitED
  }

  /** The flag test on the widened operands agrees with a plain byte-wide test. */
  function CheckFlag(flag: Flag, flags: byte): (r: bool)
    ensures r <==> flags & Mask(flag) != 0
  {
    match flag
    case UP => CheckFlagUP(flags)
    case UV => CheckFlagUV(flags)
    case AT => CheckFlagAT(flags)
    case ED => CheckFlagED(flags)
  }

  /** The flags byte with `flag` set. */
  function SetFlag(flags: byte, flag: Flag): byte {
    flags | Mask(flag)
  }

  /** The flags byte with `flag` cleared. */
  function ClearFlag(flags: byte, flag: Flag): byte {
    flags & !Mask(flag)
  }

  /** Setting one flag turns it on and leaves the other three as they were. */
  lemma SetFlagIsolated(flags: byte, changed: Flag, other: Flag)
    requires changed != other
    ensures CheckFlag(changed, SetFlag(flags, changed))
    ensures CheckFlag(other, SetFlag(flags, changed)) == CheckFlag(other, flags)
  {
    MasksDisjoint(changed, other);
    MaskUpdate(flags, Mask(changed), Mask(other));
  }

  /** Clearing one flag turns it off and leaves the other three as they were. */
  lemma ClearFlagIsolated(flags: byte, changed: Flag, other: Flag)
    requires changed != other
    ensures !CheckFlag(changed, ClearFlag(flags, changed))
    ensures CheckFlag(other, ClearFlag(flags, changed)) == CheckFlag(other, flags)
  {
    MasksDisjoint(changed, other);
    MaskUpdate(flags, Mask(changed), Mask(other));
  }

  /** Each flag owns one bit that no other flag shares. */
  lemma MasksDisjoint(a: Flag, b: Flag)
    requires a != b
    ensures Mask(a) != 0 && Mask(a) & Mask(b) == 0
  {
  }

  /** Or-ing in, or masking out, bits `m` keeps the bits `n` disjoint from them. */
  lemma MaskUpdate(b: byte, m: byte, n: byte)
    requires m != 0 && m & n == 0
    ensures (b | m) & m != 0 && (b & !m) & m == 0
    ensures ((b | m) & n != 0) == (b & n != 0)
    ensures ((b & !m) & n != 0) == (b & n != 0)
  {
  }

  datatype AuthenticatorData = AuthenticatorData(
    rpIdHash: Option<seq<byte>>,
    flags: byte,
    signCount: int64,
    attestedCredentialData: Option<AttestedCredentialData>,
    extensions: Option<seq<Extension>>)

  // The instance flag tests read the stored flags byte.

  function IsFlagUP(ad: AuthenticatorData): (r: bool)
    ensures r <==> BitSet(ad.flags, 0)
  {
    CheckFlagUP(ad.flags)
  }

  function IsFlagUV(ad: AuthenticatorData): (r: bool)
    ensures r <==> BitSet(ad.flags, 2)
  {
    CheckFlagUV(ad.flags)
  }

  function IsFlagAT(ad: AuthenticatorData): (r: bool)
    ensures r <==> BitSet(ad.flags, 6)
  {
    CheckFlagAT(ad.flags)
  }

  function IsFlagED(ad: AuthenticatorData): (r: bool)
    ensures r <==> BitSet(ad.flags, 7)
  {
    CheckFlagED(ad.flags)
  }

  /** The five-argument constructor: every field is stored as given, except
      that a null extension list becomes the empty list. */
  function NewAuthenticatorData(
    rpIdHash: Option<seq<byte>>,
    flags: byte,
    counter: int64,
    attestedCredentialData: Option<AttestedCredentialData>,
    extensions: Option<seq<Extension>>): (ad: AuthenticatorData)
    ensures ad.rpIdHash == rpIdHash && ad.flags == flags && ad.signCount == counter
    ensures ad.attestedCredentialData == attestedCredentialData
    ensures ad.extensions.Some?
    ensures extensions.Some? ==> ad.extensions == extensions
    ensures extensions.None? ==> ad.extensions == Some([])
  {
    var stored := if extensions.None? then [] else extensions.value;
    AuthenticatorData(rpIdHash, flags, counter, attestedCredentialData, Some(stored))
  }

  /** Java's `Arrays.equals` on two possibly null byte arrays. */
  function ArraysEquals(a: Option<seq<byte>>, b: Option<seq<byte>>): (r: bool)
    ensures r <==> a == b
  {
    match (a, b)
    case (None, None) => true
    case (Some(x), Some(y)) =>
      var same := |x| == |y| && forall i | 0 <= i < |x| :: x[i] == y[i];
      assert same ==> x == y;
      same
    case _ => false
  }

  /** Java's null-aware `a != null ? a.equals(b) : b == null`. */
  function NullableEquals<T(==)>(a: Option<T>, b: Option<T>): (r: bool)
    ensures r <==> a == b
  {
    if a.Some? then b.Some? && a.value == b.value else b.None?
  }

  /** `AuthenticatorData.equals`: field by field, in the order flags, counter,
      relying-party-ID hash contents, attested credential data, extensions. */
  function Equals(a: AuthenticatorData, b: AuthenticatorData): (r: bool)
    ensures r <==> a == b
  {
    && a.flags == b.flags
    && a.signCount == b.signCount
    && ArraysEquals(a.rpIdHash, b.rpIdHash)
    && NullableEquals(a.attestedCredentialData, b.attestedCredentialData)
    && NullableEquals(a.extensions, b.extensions)
  }

  /** `equals` is an equivalence relation. */
  lemma EqualsIsEquivalence(a: AuthenticatorData, b: AuthenticatorData, c: AuthenticatorData)
    ensures Equals(a, a)
    ensures Equals(a, b) <==> Equals(b, a)
    ensures Equals(a, b) && Equals(b, c) ==> Equals(a, c)
  {
  }

  /** The `hashCode` of the two collaborators whose classes are not part of
      this model: attested credential data and one extension output. */
  datatype Hashers = Hashers(
    credentialData: AttestedCredentialData -> int32,
    extension: Extension -> int32)

  /** `AuthenticatorData.hashCode`: the fold `result = 31 * result + field`
      over the hash of the relying-party-ID hash, the flags byte widened to
      `int`, the counter's `long` hash, the attested credential data's hash
      (0 when null) and the extension list's hash (0 when null). */
  function HashCode(hashers: Hashers, ad: AuthenticatorData): int32 {
    var result := ArraysHashCode(ad.rpIdHash);
    var result := Wrap32(31 * result + SignedByte(ad.flags));
    var result := Wrap32(31 * result + LongHash(ad.signCount));
    var result := Wrap32(31 * result + CredentialDataHash(hashers, ad.attestedCredentialData));
    Wrap32(31 * result + ExtensionsHash(hashers, ad.extensions))
  }

  function CredentialDataHash(hashers: Hashers, acd: Option<AttestedCredentialData>): int32 {
    if acd.Some? then hashers.credentialData(acd.value) else 0
  }

  function ExtensionsHash(hashers: Hashers, extensions: Option<seq<Extension>>): int32 {
    if extensions.Some? then ListHashCode(extensions.value, hashers.extension) else 0
  }

  /** Values that are `equals` have the same `hashCode`, whatever hash codes
      the collaborators have. */
  lemma EqualsConsistentWithHashCode(hashers: Hashers, a: AuthenticatorData, b: AuthenticatorData)
    requires Equals(a, b)
    ensures HashCode(hashers, a) == HashCode(hashers, b)
  {
  }

  /** The field-by-field wrapping fold equals the exact weighted sum of the five
      field hashes, with weights 31^4 down to 1, reduced once to an `int`. */
  lemma {:induction false} HashCodeClosedForm(hashers: Hashers, ad: AuthenticatorData)
    ensures HashCode(hashers, ad) == Wrap32(
      Pow31(4) * ArraysHashCode(ad.rpIdHash)
      + Pow31(3) * SignedByte(ad.flags)
      + Pow31(2) * LongHash(ad.signCount)
      + 31 * CredentialDataHash(hashers, ad.attestedCredentialData)
      + ExtensionsHash(hashers, ad.extensions))
  {
    var a: int, f: int, c: int := ArraysHashCode(ad.rpIdHash), SignedByte(ad.flags), LongHash(ad.signCount);
    var d: int, e: int := CredentialDataHash(hashers, ad.attestedCredentialData), ExtensionsHash(hashers, ad.extensions);
    assert HashCode(hashers, ad) == Wrap32(31 * Wrap32(31 * Wrap32(31 * Wrap32(31 * a + f) + c) + d) + e);
    FoldOfFive(a, f, c, d, e);
    assert Pow31(2) == 961;
    assert Pow31(3) == 29791;
    assert Pow31(4) == 923521;
  }

  /** Four wrapping steps of the fold over five field hashes equal the exact
      weighted sum reduced once. */
  lemma FoldOfFive(a: int, f: int, c: int, d: int, e: int)
    ensures Wrap32(31 * Wrap32(31 * Wrap32(31 * Wrap32(31 * a + f) + c) + d) + e)
         == Wrap32(923521 * a + 29791 * f + 961 * c + 31 * d + e)
  {
    var h1 := 31 * a + f;
    var h2 := 31 * h1 + c;
    var h3 := 31 * h2 + d;
    Wrap32Step(h1, c);
    Wrap32Step(h2, d);
    Wrap32Step(h3, e);
    assert 31 * h3 + e == 923521 * a + 29791 * f + 961 * c + 31 * d + e;
  }

  /** For a non-null hash of a counter below 2^32 the closed form reads
      directly off the bytes: the array hash is the byte polynomial and the
      counter contributes its own value. */
  lemma HashCodeOfUnsignedCounter(hashers: Hashers, ad: AuthenticatorData)
    requires ad.rpIdHash.Some? && 0 <= ad.signCount < IntModulus
    ensures HashCode(hashers, ad) == Wrap32(
      Pow31(4) * Wrap32(Pow31(|ad.rpIdHash.value|) + WeightedSum(ad.rpIdHash.value, SignedByte))
      + Pow31(3) * SignedByte(ad.flags)
      + Pow31(2) * Wrap32(ad.signCount)
      + 31 * CredentialDataHash(hashers, ad.attestedCredentialData)
      + ExtensionsHash(hashers, ad.extensions))
  {
    HashCodeClosedForm(hashers, ad);
    HashFoldClosedForm(ad.rpIdHash.value, SignedByte);
    LongHashOfUnsignedInt(ad.signCount);
  }
}
