/** Opening a locked batch: shares, recovered intents, and the orders they become. */
module Recovery {
  import opened Bytes
  import opened Order
  import opened HostChain
  import opened Submission
  import opened Admission
  import L = Ledger

  /** A decrypted intent: the fields read out of its 128-byte body, and the trader's signature on that body. */
  datatype SignedIntent = SignedIntent(epochId: Bytes32, participant: Bytes32, side: L.Side, limit: u64,
                                       body: seq<byte>, signature: Signature)

  datatype Share = Share(epochAccount: Bytes32, lockDigest: Bytes32, ciphertextHash: Bytes32, index: nat,
                         share: seq<byte>)
  datatype Evidence = Evidence(first: Share, second: Share)

  /** Threshold decryption: checking a share of a key set, combining two of them, and reading the plaintext. */
  datatype Threshold = Threshold(
    shareOk: (seq<byte>, nat, seq<byte>, seq<byte>) -> bool,
    decrypt: (seq<byte>, seq<byte>, nat, seq<byte>, nat, seq<byte>) -> Option<seq<byte>>,
    readIntent: seq<byte> -> Option<SignedIntent>)

  /** Any two valid shares with distinct indices recover the same plaintext. */
  ghost predicate ThresholdSound(t: Threshold, plain: (seq<byte>, seq<byte>) -> Option<seq<byte>>) {
    forall keys, ct, i, x, j, y | i != j && t.shareOk(keys, i, x, ct) && t.shareOk(keys, j, y, ct) ::
      t.decrypt(keys, ct, i, x, j, y) == plain(keys, ct)
  }

  // "KAGEB_INTENT_V1\0"
  const INTENT_DOMAIN: seq<byte> := [75, 65, 71, 69, 66, 95, 73, 78, 84, 69, 78, 84, 95, 86, 49, 0]

  function IntentBytes(x: SignedIntent): seq<byte> { x.body + SignatureBytes(x.signature) }

  // ---- recovering one submission ----

  predicate SharesFit(c: Crypto, s: EncryptedSubmission, ev: Evidence, account: Bytes32, digest: Bytes32) {
    && ev.first.epochAccount == account && ev.second.epochAccount == account
    && ev.first.lockDigest == digest && ev.second.lockDigest == digest
    && ev.first.ciphertextHash == c.sha(s.ciphertext) && ev.second.ciphertextHash == c.sha(s.ciphertext)
  }

  /** `recover_submission` for a pair of shares that name this lock. */
  function RecoverOne(c: Crypto, t: Threshold, keys: seq<byte>, s: EncryptedSubmission, ev: Evidence, account: Bytes32,
                      digest: Bytes32): Option<SignedIntent> {
    var a, b := ev.first, ev.second;
    if !SharesFit(c, s, ev, account, digest) || |s.ciphertext| != CIPHERTEXT_LEN || !c.cipherOk(s.ciphertext) then None
    else if a.index == b.index || !t.shareOk(keys, a.index, a.share, s.ciphertext)
        || !t.shareOk(keys, b.index, b.share, s.ciphertext) then None
    else
      match t.decrypt(keys, s.ciphertext, a.index, a.share, b.index, b.share)
      case None => None
      case Some(plaintext) => t.readIntent(plaintext)
  }

  function RecoverFrom(c: Crypto, t: Threshold, keys: seq<byte>, subs: seq<EncryptedSubmission>, evs: seq<Evidence>,
                       account: Bytes32, digest: Bytes32, i: nat): Option<seq<SignedIntent>>
    requires |evs| == |subs| && i <= |subs|
    decreases |subs| - i
  {
    if i == |subs| then Some([])
    else
      match RecoverOne(c, t, keys, subs[i], evs[i], account, digest)
      case None => None
      case Some(x) =>
        match RecoverFrom(c, t, keys, subs, evs, account, digest, i + 1)
        case None => None
        case Some(rest) => Some([x] + rest)
  }

  method RecoverAll(c: Crypto, t: Threshold, keys: seq<byte>, subs: seq<EncryptedSubmission>, evs: seq<Evidence>,
                    account: Bytes32, digest: Bytes32)
    returns (r: Option<seq<SignedIntent>>)
    requires |evs| == |subs|
    ensures r == RecoverFrom(c, t, keys, subs, evs, account, digest, 0)
  {
    var recovered: seq<SignedIntent> := [];
    ghost var all := RecoverFrom(c, t, keys, subs, evs, account, digest, 0);
    assert all.Some? ==> [] + all.value == all.value;
    for i := 0 to |subs|
      invariant all ==
                match RecoverFrom(c, t, keys, subs, evs, account, digest, i)
                case None => None
                case Some(rest) => Some(recovered + rest)
    {
      var x := RecoverOne(c, t, keys, subs[i], evs[i], account, digest);
      if x.None? { return None; }
      ghost var rest := RecoverFrom(c, t, keys, subs, evs, account, digest, i + 1);
      if rest.Some? { Assoc(recovered, [x.value], rest.value); }
      recovered := recovered + [x.value];
    }
    assert recovered + [] == recovered;
    return Some(recovered);
  }

  /** The intent inside a ciphertext, whoever opens it. */
  function IntentIn(t: Threshold, plain: (seq<byte>, seq<byte>) -> Option<seq<byte>>, keys: seq<byte>,
                    ct: seq<byte>): Option<SignedIntent> {
    match plain(keys, ct)
    case None => None
    case Some(plaintext) => t.readIntent(plaintext)
  }

  lemma RecoverOneIsIntent(c: Crypto, t: Threshold, plain: (seq<byte>, seq<byte>) -> Option<seq<byte>>, keys: seq<byte>,
                           s: EncryptedSubmission, ev: Evidence, account: Bytes32, digest: Bytes32)
    requires ThresholdSound(t, plain) && RecoverOne(c, t, keys, s, ev, account, digest).Some?
    ensures RecoverOne(c, t, keys, s, ev, account, digest) == IntentIn(t, plain, keys, s.ciphertext)
  {
  }

  const NO_INTENT := SignedIntent(ZERO, ZERO, L.Buy, 0, [], Signature(ZERO, ZERO))

  function Opened(t: Threshold, plain: (seq<byte>, seq<byte>) -> Option<seq<byte>>,
                  keys: seq<byte>): EncryptedSubmission -> SignedIntent {
    (s: EncryptedSubmission) => var x := IntentIn(t, plain, keys, s.ciphertext); if x.Some? then x.value else NO_INTENT
  }

  lemma {:induction false} RecoverFromIs(c: Crypto, t: Threshold, plain: (seq<byte>, seq<byte>) -> Option<seq<byte>>,
                                         keys: seq<byte>, subs: seq<EncryptedSubmission>, evs: seq<Evidence>,
                                           account: Bytes32, digest: Bytes32, i: nat)
    requires |evs| == |subs| && i <= |subs| && ThresholdSound(t, plain)
    requires RecoverFrom(c, t, keys, subs, evs, account, digest, i).Some?
    ensures RecoverFrom(c, t, keys, subs, evs, account, digest, i).value == Map(subs[i..], Opened(t, plain, keys))
    decreases |subs| - i
  {
    if i < |subs| {
      RecoverFromIs(c, t, plain, keys, subs, evs, account, digest, i + 1);
      RecoverOneIsIntent(c, t, plain, keys, subs[i], evs[i], account, digest);
      assert subs[i..][1..] == subs[i + 1..];
    }
  }

  /** What is recovered depends on the key set and the ciphertexts alone, not on who released the shares. */
  lemma RecoveredIs(c: Crypto, t: Threshold, plain: (seq<byte>, seq<byte>) -> Option<seq<byte>>, keys: seq<byte>,
                    subs: seq<EncryptedSubmission>, evs: seq<Evidence>, account: Bytes32, digest: Bytes32)
    requires |evs| == |subs| && ThresholdSound(t, plain) && RecoverFrom(c, t, keys, subs, evs, account, digest, 0).Some?
    ensures RecoverFrom(c, t, keys, subs, evs, account, digest, 0).value == Map(subs, Opened(t, plain, keys))
  {
    RecoverFromIs(c, t, plain, keys, subs, evs, account, digest, 0);
    assert subs[0..] == subs;
  }

  // ---- from intents to orders ----

  function FindMember(subs: seq<EncryptedSubmission>, p: Bytes32): (r: Option<EncryptedSubmission>)
    ensures r.Some? ==> r.value in subs && r.value.auth.participant == p
    ensures r.None? ==> forall s | s in subs :: s.auth.participant != p
  {
    if subs == [] then None else if subs[0].auth.participant == p then Some(subs[0]) else FindMember(subs[1..], p)
  }

  /** The intent belongs to a member, that member's trading key signed it, and it sets a limit. */
  predicate IntentFits(c: Crypto, subs: seq<EncryptedSubmission>, epochId: Bytes32, x: SignedIntent) {
    var s := FindMember(subs, x.participant);
    && s.Some? && c.validKey(s.value.auth.tradingKey) && x.epochId == epochId
    && c.sigOk(s.value.auth.tradingKey, INTENT_DOMAIN + x.body, x.signature) && x.limit != 0
  }

  const TRADER: SignedIntent -> Bytes32 := (x: SignedIntent) => x.participant
  const ORDER: SignedIntent -> L.FundedOrder := (x: SignedIntent) => L.FundedOrder(x.participant, x.side, x.limit)

  ghost predicate IntentsFit(c: Crypto, subs: seq<EncryptedSubmission>, epochId: Bytes32, xs: seq<SignedIntent>) {
    && (forall i | 0 <= i < |xs| :: IntentFits(c, subs, epochId, xs[i]))
    && (forall i, j | 0 <= i < j < |xs| :: xs[i].participant != xs[j].participant)
  }

  /** The loop that turns recovered intents into orders. */
  method CollectOrders(c: Crypto, subs: seq<EncryptedSubmission>, epochId: Bytes32, xs: seq<SignedIntent>)
    returns (r: Option<seq<L.FundedOrder>>)
    ensures r.Some? <==> IntentsFit(c, subs, epochId, xs)
    ensures r.Some? ==> r.value == Map(xs, ORDER)
  {
    var seen: set<Bytes32>, orders: seq<L.FundedOrder> := {}, [];
    for i := 0 to |xs|
      invariant |orders| == i && forall k | 0 <= k < i :: orders[k] == ORDER(xs[k])
      invariant forall p :: p in seen <==> exists k | 0 <= k < i :: xs[k].participant == p
      invariant forall k | 0 <= k < i :: IntentFits(c, subs, epochId, xs[k])
      invariant forall k, l | 0 <= k < l < i :: xs[k].participant != xs[l].participant
    {
      var x := xs[i];
      if x.participant in seen || !IntentFits(c, subs, epochId, x) { return None; }
      seen := seen + {x.participant};
      orders := orders + [L.FundedOrder(x.participant, x.side, x.limit)];
    }
    return Some(orders);
  }

  // ---- the orders hit every member exactly once ----

  lemma TradersDistinct(c: Crypto, subs: seq<EncryptedSubmission>, epochId: Bytes32, xs: seq<SignedIntent>)
    requires IntentsFit(c, subs, epochId, xs)
    ensures Distinct(Map(xs, TRADER))
  {
  }

  lemma MembersDistinct(subs: seq<EncryptedSubmission>)
    requires AllApart(subs)
    ensures Distinct(Map(subs, PARTICIPANT))
  {
    forall i, j | 0 <= i < j < |subs| ensures Map(subs, PARTICIPANT)[i] != Map(subs, PARTICIPANT)[j] {
      assert Apart(subs[i], subs[j]);
    }
  }

  lemma TraderIsMember(c: Crypto, subs: seq<EncryptedSubmission>, epochId: Bytes32, xs: seq<SignedIntent>, p: Bytes32)
    requires IntentsFit(c, subs, epochId, xs) && p in Map(xs, TRADER)
    ensures p in Map(subs, PARTICIPANT)
  {
    var x := MapFrom(xs, TRADER, p);
    var i :| 0 <= i < |xs| && xs[i] == x;
    assert IntentFits(c, subs, epochId, xs[i]);
    MapIn(subs, PARTICIPANT, FindMember(subs, x.participant).value);
  }

  /** As many intents as members, all from members, no two from one: every member trades exactly once. */
  lemma EveryMemberTradesOnce(c: Crypto, subs: seq<EncryptedSubmission>, epochId: Bytes32, xs: seq<SignedIntent>)
    requires AllApart(subs) && |xs| == |subs| && IntentsFit(c, subs, epochId, xs)
    ensures multiset(Map(xs, TRADER)) == multiset(Map(subs, PARTICIPANT))
  {
    TradersDistinct(c, subs, epochId, xs);
    MembersDistinct(subs);
    forall p | p in Map(xs, TRADER) ensures p in Map(subs, PARTICIPANT) { TraderIsMember(c, subs, epochId, xs, p); }
    Pigeonhole(Map(xs, TRADER), Map(subs, PARTICIPANT));
  }
}
