/** Encrypted submissions: their encodings, what admission checks, and what a commitment leaf determines. */
module Submission {
  import opened Bytes
  import opened Layout
  import opened HostChain

  datatype Signature = Signature(r: Bytes32, s: Bytes32)

  /** The cryptographic primitives, as functions. A ciphertext and a key set are their own encodings. */
  datatype Crypto = Crypto(
    sha: Sha,
    validKey: Bytes32 -> bool,
    sigOk: (Bytes32, seq<byte>, Signature) -> bool,
    cipherOk: seq<byte> -> bool,
    keysOk: seq<byte> -> bool)

  datatype Authorization = Authorization(
    version: byte, operatorKey: Bytes32, epochId: Bytes32, participant: Bytes32, tradingKey: Bytes32, nonce: Bytes32,
    base: u64, quote: u64, expirySlot: u64, signature: Signature)

  datatype EncryptedSubmission = EncryptedSubmission(auth: Authorization, ciphertext: seq<byte>, receipt: Bytes32,
                                                     outer: Signature)

  // "KAGEB_FUNDED_AUTH_V1\0"
  const FUNDED_AUTH_DOMAIN: seq<byte> := [75, 65, 71, 69, 66, 95, 70, 85, 78, 68, 69, 68, 95, 65, 85, 84, 72, 95, 86,
                                          49, 0]
  // "KAGEB_SUBMISSION_V1\0"
  const SUBMISSION_DOMAIN: seq<byte> := [75, 65, 71, 69, 66, 95, 83, 85, 66, 77, 73, 83, 83, 73, 79, 78, 95, 86, 49, 0]
  // "KAGEB_EPOCH_KEY_SET_V1\0"
  const KEY_SET_DOMAIN: seq<byte> := [75, 65, 71, 69, 66, 95, 69, 80, 79, 67, 72, 95, 75, 69, 89, 95, 83, 69, 84, 95,
                                      86, 49, 0]
  const CIPHERTEXT_LEN := 344
  const AUTH_LEN := 249
  const SUBMISSION_LEN := 689

  // ---- encodings ----

  function UnsignedFields(a: Authorization): seq<Field> {
    [Byte(a.version), Word(a.operatorKey), Word(a.epochId), Word(a.participant), Word(a.tradingKey), Word(a.nonce),
     U64(a.base), U64(a.quote), U64(a.expirySlot)]
  }

  const AUTH_KINDS := [KByte, KWord, KWord, KWord, KWord, KWord, KU64, KU64, KU64, KWord, KWord]

  function AuthFields(a: Authorization): (r: seq<Field>)
    ensures KindsOf(r) == AUTH_KINDS
  {
    [Byte(a.version), Word(a.operatorKey), Word(a.epochId), Word(a.participant), Word(a.tradingKey), Word(a.nonce),
     U64(a.base), U64(a.quote), U64(a.expirySlot), Word(a.signature.r), Word(a.signature.s)]
  }

  function AuthBytes(a: Authorization): seq<byte> { PutAll(AuthFields(a)) }

  lemma AuthSize()
    ensures Size(AUTH_KINDS) == AUTH_LEN
  {
    SizeFirst(KWord, []);
    assert [KWord] + [] == [KWord];
    SizeFive(KWord, KU64, KU64, KU64, KWord, [KWord]);
    SizeFive(KByte, KWord, KWord, KWord, KWord, [KWord, KU64, KU64, KU64, KWord] + [KWord]);
    assert AUTH_KINDS == [KByte, KWord, KWord, KWord, KWord] + ([KWord, KU64, KU64, KU64, KWord] + [KWord]);
  }

  function AuthFrom(f: seq<Field>): Authorization
    requires |f| == 11
  {
    Authorization(B(f[0]), W(f[1]), W(f[2]), W(f[3]), W(f[4]), W(f[5]), N64(f[6]), N64(f[7]), N64(f[8]),
      Signature(W(f[9]), W(f[10])))
  }

  function DecodeAuth(c: Crypto, s: seq<byte>): Option<Authorization> {
    if |s| != AUTH_LEN || s[0] != 1 then None
    else
      AuthSize();
      var a := AuthFrom(TakeAll(AUTH_KINDS, s));
      if c.validKey(a.tradingKey) && c.validKey(a.operatorKey) then Some(a) else None
  }

  lemma AuthRoundTrip(c: Crypto, a: Authorization)
    ensures |AuthBytes(a)| == AUTH_LEN && AuthBytes(a)[0] == a.version
    ensures a.version == 1 && c.validKey(a.tradingKey) && c.validKey(a.operatorKey)
            ==> DecodeAuth(c, AuthBytes(a)) == Some(a)
  {
    AuthSize();
    PutSize(AuthFields(a));
    RoundTrip(AuthFields(a), []);
    assert AuthBytes(a) + [] == AuthBytes(a);
    assert AuthBytes(a)[0] == Put(AuthFields(a)[0])[0];
    assert AuthFrom(AuthFields(a)) == a;
  }

  function SignatureBytes(s: Signature): (r: seq<byte>)
    ensures |r| == 64
  {
    Raw(s.r) + Raw(s.s)
  }

  /** The wire form. */
  function SubmissionBytes(s: EncryptedSubmission): seq<byte> {
    AuthBytes(s.auth) + s.ciphertext + Raw(s.receipt) + SignatureBytes(s.outer)
  }

  function DecodeSubmission(c: Crypto, s: seq<byte>): Option<EncryptedSubmission> {
    if |s| != SUBMISSION_LEN then None
    else
      match DecodeAuth(c, s[..249])
      case None => None
      case Some(a) =>
        Some(EncryptedSubmission(a, s[249..593], ReadBytes32(s[593..625]),
          Signature(ReadBytes32(s[625..657]), ReadBytes32(s[657..689]))))
  }

  /** Nothing was lost on the wire. */
  predicate Sendable(c: Crypto, s: EncryptedSubmission) {
    s.auth.version == 1 && c.validKey(s.auth.tradingKey) && c.validKey(s.auth.operatorKey)
      && |s.ciphertext| == CIPHERTEXT_LEN
  }

  lemma SubmissionParts(a: seq<byte>, ct: seq<byte>, receipt: seq<byte>, r: seq<byte>, s: seq<byte>)
    requires |a| == 249 && |ct| == 344 && |receipt| == 32 && |r| == 32 && |s| == 32
    ensures var w := a + ct + receipt + (r + s);
            && |w| == 689 && w[..249] == a && w[249..593] == ct && w[593..625] == receipt && w[625..657] == r
               && w[657..689] == s
  {
  }

  lemma SubmissionRoundTrip(c: Crypto, s: EncryptedSubmission)
    requires Sendable(c, s)
    ensures |SubmissionBytes(s)| == SUBMISSION_LEN
    ensures DecodeSubmission(c, SubmissionBytes(s)) == Some(s)
  {
    AuthRoundTrip(c, s.auth);
    SubmissionParts(AuthBytes(s.auth), s.ciphertext, Raw(s.receipt), Raw(s.outer.r), Raw(s.outer.s));
  }

  // ---- admission checks ----

  function AuthMessage(a: Authorization): seq<byte> { FUNDED_AUTH_DOMAIN + PutAll(UnsignedFields(a)) }

  function SubmissionMessage(c: Crypto, s: EncryptedSubmission): seq<byte> {
    SUBMISSION_DOMAIN + Raw(s.auth.epochId) + Raw(c.sha(FUNDED_AUTH_DOMAIN + AuthBytes(s.auth)))
      + Raw(c.sha(s.ciphertext)) + Raw(s.receipt)
  }

  /** `FundedAuthorizationV1::verify`: a lot of each asset, for this epoch, signed by the pool's operator. */
  predicate ValidAuthorization(c: Crypto, policy: Policy, a: Authorization) {
    && a.version == 1 && a.operatorKey == policy.operatorKey && a.base == policy.base && a.quote == policy.quote
    && a.expirySlot >= policy.currentSlot && a.epochId == policy.epochId
    && c.validKey(a.operatorKey) && c.sigOk(a.operatorKey, AuthMessage(a), a.signature)
  }

  /** `verify_admission(..).is_ok()`. */
  predicate ValidSubmission(c: Crypto, policy: Policy, s: EncryptedSubmission) {
    && ValidAuthorization(c, policy, s.auth) && s.receipt != ZERO
    && |s.ciphertext| == CIPHERTEXT_LEN && c.cipherOk(s.ciphertext)
    && c.validKey(s.auth.tradingKey) && c.sigOk(s.auth.tradingKey, SubmissionMessage(c, s), s.outer)
  }

  lemma ValidIsSendable(c: Crypto, policy: Policy, s: EncryptedSubmission)
    requires ValidSubmission(c, policy, s)
    ensures Sendable(c, s)
  {
  }

  // ---- commitment leaves ----

  function LeafFields(c: Crypto, s: EncryptedSubmission): seq<Field> {
    AuthFields(s.auth) + [Word(c.sha(s.ciphertext)), Word(s.receipt), Word(s.outer.r), Word(s.outer.s)]
  }

  /** `commitment_bytes`: everything but the ciphertext itself, which is represented by its hash. */
  function SubmissionLeaf(c: Crypto, s: EncryptedSubmission): seq<byte> { PutAll(LeafFields(c, s)) }

  /** The leaf that commits to the epoch's encryption keys. */
  function KeysLeaf(keys: seq<byte>): seq<byte> { KEY_SET_DOMAIN + keys }

  lemma LeafLength(c: Crypto, s: EncryptedSubmission)
    ensures |SubmissionLeaf(c, s)| == 377 && SubmissionLeaf(c, s)[0] == s.auth.version
  {
    var tail := [Word(c.sha(s.ciphertext)), Word(s.receipt), Word(s.outer.r), Word(s.outer.s)];
    AuthRoundTrip(c, s.auth);
    EncodeAllSplit(AuthFields(s.auth), tail, Put);
    EncodeAllLength(tail, 32, Put);
  }

  lemma AuthFieldsInjective(a: Authorization, b: Authorization)
    requires AuthFields(a) == AuthFields(b)
    ensures a == b
  {
    assert AuthFrom(AuthFields(a)) == a;
    assert AuthFrom(AuthFields(b)) == b;
  }

  lemma LeafFieldsInjective(c: Crypto, s: EncryptedSubmission, t: EncryptedSubmission)
    requires LeafFields(c, s) == LeafFields(c, t)
    ensures s.auth == t.auth && c.sha(s.ciphertext) == c.sha(t.ciphertext) && s.receipt == t.receipt
            && s.outer == t.outer
  {
    var f, g := LeafFields(c, s), LeafFields(c, t);
    assert f[..11] == AuthFields(s.auth) && g[..11] == AuthFields(t.auth);
    AuthFieldsInjective(s.auth, t.auth);
    assert f[11] == Word(c.sha(s.ciphertext)) && g[11] == Word(c.sha(t.ciphertext));
    assert f[12] == Word(s.receipt) && g[12] == Word(t.receipt);
    assert f[13] == Word(s.outer.r) && g[13] == Word(t.outer.r);
    assert f[14] == Word(s.outer.s) && g[14] == Word(t.outer.s);
  }

  /** A leaf determines the whole submission, ciphertext included. */
  lemma LeafInjective(c: Crypto, s: EncryptedSubmission, t: EncryptedSubmission)
    requires Sound(c.sha, iset{s.ciphertext, t.ciphertext}) && SubmissionLeaf(c, s) == SubmissionLeaf(c, t)
    ensures s == t
  {
    var f, g := LeafFields(c, s), LeafFields(c, t);
    assert KindsOf(f) == KindsOf(g);
    PutAllInjective(f, g);
    LeafFieldsInjective(c, s, t);
  }

  /** A submission's leaf is never taken for the key set's. */
  lemma LeafIsNotKeys(c: Crypto, s: EncryptedSubmission, keys: seq<byte>)
    requires s.auth.version == 1
    ensures SubmissionLeaf(c, s) != KeysLeaf(keys)
  {
    LeafLength(c, s);
    assert KeysLeaf(keys)[0] == 75;
  }
}
