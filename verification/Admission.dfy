/** Batch admission: which submissions become members. */
module Admission {
  import opened Bytes
  import opened Order
  import opened HostChain
  import opened Submission

  /** Whether a submission passes `verify_admission` under the policy at hand. */
  type Check = EncryptedSubmission -> bool

  function Checker(c: Crypto, policy: Policy): Check { s => ValidSubmission(c, policy, s) }

  /** The three collections of the loop. */
  datatype State = State(valid: map<Bytes32, EncryptedSubmission>, nonces: set<Bytes32>, receipts: set<Bytes32>)

  const START := State(map[], {}, {})

  /** One turn of the loop. A nonce is recorded before the receipt is looked at. */
  function Turn(ok: Check, st: State, s: EncryptedSubmission): State {
    if !ok(s) || s.auth.participant in st.valid || s.auth.nonce in st.nonces then st
    else if s.receipt in st.receipts then st.(nonces := st.nonces + {s.auth.nonce})
    else State(st.valid[s.auth.participant := s], st.nonces + {s.auth.nonce}, st.receipts + {s.receipt})
  }

  function Fold(ok: Check, subs: seq<EncryptedSubmission>): State {
    if subs == [] then START else Turn(ok, Fold(ok, subs[..|subs| - 1]), subs[|subs| - 1])
  }

  datatype AdmissionError = InsufficientCrowd(valid: nat, minimum: nat)

  /** The admitted members in participant order. */
  function Members(valid: map<Bytes32, EncryptedSubmission>): seq<EncryptedSubmission> {
    Map(Entries(valid), (e: (Bytes32, EncryptedSubmission)) => e.1)
  }

  function AdmitSpec(ok: Check, minimum: nat,
                     subs: seq<EncryptedSubmission>): Result<seq<EncryptedSubmission>, AdmissionError> {
    var valid := Fold(ok, subs).valid;
    if |valid| < minimum then Err(InsufficientCrowd(|valid|, minimum)) else Ok(Members(valid))
  }

  method AdmitBatch(ok: Check, minimum: nat, subs: seq<EncryptedSubmission>)
    returns (r: Result<seq<EncryptedSubmission>, AdmissionError>)
    ensures r == AdmitSpec(ok, minimum, subs)
  {
    var valid: map<Bytes32, EncryptedSubmission>, nonces: set<Bytes32>, receipts: set<Bytes32> := map[], {}, {};
    for i := 0 to |subs|
      invariant State(valid, nonces, receipts) == Fold(ok, subs[..i])
    {
      assert subs[..i + 1][..i] == subs[..i];
      var s := subs[i];
      if ok(s) && s.auth.participant !in valid && s.auth.nonce !in nonces {
        nonces := nonces + {s.auth.nonce};
        if s.receipt !in receipts {
          receipts := receipts + {s.receipt};
          valid := valid[s.auth.participant := s];
        }
      }
    }
    assert subs[..|subs|] == subs;
    if |valid| < minimum { return Err(InsufficientCrowd(|valid|, minimum)); }
    return Ok(Members(valid));
  }

  // ---- what admitted members are ----

  ghost predicate Member(ok: Check, st: State, p: Bytes32) {
    && p in st.valid && ok(st.valid[p]) && st.valid[p].auth.participant == p
    && st.valid[p].auth.nonce in st.nonces && st.valid[p].receipt in st.receipts
  }

  ghost predicate Apart(a: EncryptedSubmission, b: EncryptedSubmission) {
    a.auth.participant != b.auth.participant && a.auth.nonce != b.auth.nonce && a.receipt != b.receipt
  }

  ghost predicate AllApart(subs: seq<EncryptedSubmission>) {
    forall i, j | 0 <= i < j < |subs| :: Apart(subs[i], subs[j])
  }

  ghost predicate AllValid(ok: Check, subs: seq<EncryptedSubmission>) {
    forall i | 0 <= i < |subs| :: ok(subs[i])
  }

  ghost predicate FoldInv(ok: Check, st: State) {
    && (forall p | p in st.valid :: Member(ok, st, p))
    && (forall p, q | p in st.valid && q in st.valid && p != q :: Apart(st.valid[p], st.valid[q]))
  }

  lemma TurnInv(ok: Check, st: State, s: EncryptedSubmission)
    requires FoldInv(ok, st)
    ensures FoldInv(ok, Turn(ok, st, s))
  {
    var t := Turn(ok, st, s);
    forall p | p in t.valid ensures Member(ok, t, p) {
      if p in st.valid { assert Member(ok, st, p); }
    }
    forall p, q | p in t.valid && q in t.valid && p != q ensures Apart(t.valid[p], t.valid[q]) {
      if p in st.valid { assert Member(ok, st, p); }
      if q in st.valid { assert Member(ok, st, q); }
    }
  }

  lemma {:induction false} FoldKeeps(ok: Check, subs: seq<EncryptedSubmission>)
    ensures FoldInv(ok, Fold(ok, subs))
  {
    if subs != [] {
      FoldKeeps(ok, subs[..|subs| - 1]);
      TurnInv(ok, Fold(ok, subs[..|subs| - 1]), subs[|subs| - 1]);
    }
  }

  const PARTICIPANT: EncryptedSubmission -> Bytes32 := (s: EncryptedSubmission) => s.auth.participant

  lemma MemberAt(ok: Check, subs: seq<EncryptedSubmission>, i: nat)
    requires i < |Fold(ok, subs).valid|
    ensures var valid := Fold(ok, subs).valid;
            && |Members(valid)| == |SortedKeys(valid.Keys)| == |valid|
            && SortedKeys(valid.Keys)[i] in valid && Members(valid)[i] == valid[SortedKeys(valid.Keys)[i]]
            && ok(Members(valid)[i]) && Members(valid)[i].auth.participant == SortedKeys(valid.Keys)[i]
  {
    var valid := Fold(ok, subs).valid;
    FoldKeeps(ok, subs);
    EntryKeys(valid);
    assert Entries(valid)[i] in Entries(valid);
    assert Member(ok, Fold(ok, subs), Entries(valid)[i].0);
  }

  lemma MemberIds(ok: Check, subs: seq<EncryptedSubmission>)
    ensures Map(Members(Fold(ok, subs).valid), PARTICIPANT) == SortedKeys(Fold(ok, subs).valid.Keys)
  {
    var valid := Fold(ok, subs).valid;
    var ids, keys := Map(Members(valid), PARTICIPANT), SortedKeys(valid.Keys);
    forall i | 0 <= i < |keys| ensures ids[i] == keys[i] { MemberAt(ok, subs, i); }
  }

  /** Members come out in the order of their participants, each filed under its own. */
  lemma MembersAscend(ok: Check, subs: seq<EncryptedSubmission>)
    ensures Map(Members(Fold(ok, subs).valid), PARTICIPANT) == SortedKeys(Fold(ok, subs).valid.Keys)
    ensures Sorted(Map(Members(Fold(ok, subs).valid), PARTICIPANT))
  {
    MemberIds(ok, subs);
    KeysAscend(Fold(ok, subs).valid.Keys);
  }

  /** All members are valid, and no two share a participant, a nonce or a receipt. */
  lemma MembersApart(ok: Check, subs: seq<EncryptedSubmission>)
    ensures AllValid(ok, Members(Fold(ok, subs).valid)) && AllApart(Members(Fold(ok, subs).valid))
  {
    var valid := Fold(ok, subs).valid;
    var keys, m := SortedKeys(valid.Keys), Members(valid);
    FoldKeeps(ok, subs);
    EntryKeys(valid);
    KeysDistinct(valid.Keys);
    forall i | 0 <= i < |m| ensures ok(m[i]) && keys[i] in valid && valid[keys[i]] == m[i] { MemberAt(ok, subs, i); }
    forall i, j | 0 <= i < j < |m| ensures Apart(m[i], m[j]) {
      assert keys[i] != keys[j];
    }
  }

  // ---- later submissions never displace a member ----

  lemma TurnKeeps(ok: Check, st: State, s: EncryptedSubmission)
    ensures st.valid.Keys <= Turn(ok, st, s).valid.Keys
    ensures forall p | p in st.valid :: Turn(ok, st, s).valid[p] == st.valid[p]
  {
  }

  /** Appending submissions keeps every admitted member, unchanged. */
  lemma {:induction false} AppendKeepsMembers(ok: Check, subs: seq<EncryptedSubmission>, more: seq<EncryptedSubmission>)
    ensures Fold(ok, subs).valid.Keys <= Fold(ok, subs + more).valid.Keys
    ensures forall p | p in Fold(ok, subs).valid :: Fold(ok, subs + more).valid[p] == Fold(ok, subs).valid[p]
  {
    if more == [] {
      assert subs + more == subs;
    } else {
      var n := |more| - 1;
      AppendKeepsMembers(ok, subs, more[..n]);
      assert (subs + more)[..|subs| + n] == subs + more[..n];
      TurnKeeps(ok, Fold(ok, subs + more[..n]), more[n]);
    }
  }

  // ---- a nonce lost to a refused receipt ----

  /** Submission `i` was refused only for its receipt, after its nonce had been recorded. */
  ghost predicate Burns(ok: Check, subs: seq<EncryptedSubmission>, i: nat)
    requires i < |subs|
  {
    var st, s := Fold(ok, subs[..i]), subs[i];
    ok(s) && s.auth.participant !in st.valid && s.auth.nonce !in st.nonces && s.receipt in st.receipts
  }

  ghost predicate Burnt(ok: Check, subs: seq<EncryptedSubmission>, nonce: Bytes32) {
    exists i | 0 <= i < |subs| :: subs[i].auth.nonce == nonce && Burns(ok, subs, i)
  }

  ghost predicate HeldNonce(st: State, nonce: Bytes32) { exists p | p in st.valid :: st.valid[p].auth.nonce == nonce }
  ghost predicate HeldReceipt(st: State, receipt: Bytes32) {
    exists p | p in st.valid :: st.valid[p].receipt == receipt
  }

  lemma BurntExtend(ok: Check, subs: seq<EncryptedSubmission>, nonce: Bytes32)
    requires subs != []
    ensures var n := |subs| - 1;
            Burnt(ok, subs, nonce)
            <==> Burnt(ok, subs[..n], nonce) || (subs[n].auth.nonce == nonce && Burns(ok, subs, n))
  {
    var n := |subs| - 1;
    forall i | 0 <= i < n ensures subs[..n][i] == subs[i] && Burns(ok, subs[..n], i) == Burns(ok, subs, i) {
      assert subs[..n][..i] == subs[..i];
    }
    if Burnt(ok, subs[..n], nonce) {
      var i :| 0 <= i < n && subs[..n][i].auth.nonce == nonce && Burns(ok, subs[..n], i);
      assert subs[i].auth.nonce == nonce && Burns(ok, subs, i);
    }
    if Burnt(ok, subs, nonce) && !(subs[n].auth.nonce == nonce && Burns(ok, subs, n)) {
      var i :| 0 <= i < |subs| && subs[i].auth.nonce == nonce && Burns(ok, subs, i);
      assert subs[..n][i].auth.nonce == nonce && Burns(ok, subs[..n], i);
    }
  }

  lemma TurnHolds(ok: Check, st: State, s: EncryptedSubmission, x: Bytes32)
    requires FoldInv(ok, st)
    ensures var t := Turn(ok, st, s);
            && (HeldNonce(t, x) <==> HeldNonce(st, x) || (t.valid != st.valid && s.auth.nonce == x))
            && (HeldReceipt(t, x) <==> HeldReceipt(st, x) || (t.valid != st.valid && s.receipt == x))
  {
    var t := Turn(ok, st, s);
    if t.valid != st.valid {
      assert t.valid[s.auth.participant] == s;
      forall p | p in st.valid ensures t.valid[p] == st.valid[p] {
      }
    }
  }

  /** The recorded nonces are those of the members and the burnt ones; the recorded receipts are the members'. */
  lemma {:induction false} RecordedNonces(ok: Check, subs: seq<EncryptedSubmission>, x: Bytes32)
    ensures x in Fold(ok, subs).nonces <==> HeldNonce(Fold(ok, subs), x) || Burnt(ok, subs, x)
    ensures x in Fold(ok, subs).receipts <==> HeldReceipt(Fold(ok, subs), x)
  {
    if subs != [] {
      var n := |subs| - 1;
      RecordedNonces(ok, subs[..n], x);
      FoldKeeps(ok, subs[..n]);
      BurntExtend(ok, subs, x);
      TurnHolds(ok, Fold(ok, subs[..n]), subs[n], x);
    }
  }

  /** A valid submission that conflicts with no admitted member is admitted exactly when its nonce was not burnt by an
      earlier submission refused for its receipt. */
  lemma AdmittedUnlessBurnt(ok: Check, subs: seq<EncryptedSubmission>, s: EncryptedSubmission)
    requires ok(s) && forall p | p in Fold(ok, subs).valid :: Apart(Fold(ok, subs).valid[p], s)
    ensures (s.auth.participant in Fold(ok, subs + [s]).valid && Fold(ok, subs + [s]).valid[s.auth.participant] == s)
            <==> !Burnt(ok, subs, s.auth.nonce)
  {
    var st := Fold(ok, subs);
    FoldKeeps(ok, subs);
    assert (subs + [s])[..|subs|] == subs;
    RecordedNonces(ok, subs, s.auth.nonce);
    RecordedNonces(ok, subs, s.receipt);
    forall p | p in st.valid ensures p != s.auth.participant { assert Member(ok, st, p); }
  }

  /** The claim without that condition fails: a refused submission keeps its nonce from a later, otherwise good one. */
  lemma RefusalBurnsNonce(ok: Check, a: EncryptedSubmission, b: EncryptedSubmission, s: EncryptedSubmission)
    requires ok(a) && ok(b) && ok(s) && Apart(a, s)
    requires a.auth.participant != b.auth.participant && a.auth.nonce != b.auth.nonce && a.receipt == b.receipt
    requires b.auth.participant != s.auth.participant && b.auth.nonce == s.auth.nonce
    ensures Fold(ok, [a, b, s]).valid == map[a.auth.participant := a]
    ensures Fold(ok, [a, s]).valid == map[a.auth.participant := a, s.auth.participant := s]
  {
    assert [a, b, s][..2] == [a, b] && [a, b][..1] == [a] && [a][..0] == [] && [a, s][..1] == [a];
    assert Fold(ok, [a]) == State(map[a.auth.participant := a], {a.auth.nonce}, {a.receipt});
  }

  // ---- trading keys play no part in admission ----

  /** No two members have one trading key. */
  ghost predicate OneKeyEach(st: State) {
    forall p, q | p in st.valid && q in st.valid && p != q :: st.valid[p].auth.tradingKey != st.valid[q].auth.tradingKey
  }

  /** After `subs`, `s` will be admitted beside a member with its trading key: it is valid, conflicts with no member in
      what is compared, its nonce was not burnt, and some member has its trading key. */
  ghost predicate SharesKey(ok: Check, subs: seq<EncryptedSubmission>, s: EncryptedSubmission) {
    var members := Fold(ok, subs).valid;
    && ok(s) && (forall p | p in members :: Apart(members[p], s)) && !Burnt(ok, subs, s.auth.nonce)
    && exists p | p in members :: members[p].auth.tradingKey == s.auth.tradingKey
  }

  /** A submission that is admitted was valid and apart from every member before it. */
  lemma AdmittedWasApart(ok: Check, subs: seq<EncryptedSubmission>, s: EncryptedSubmission)
    requires Fold(ok, subs + [s]).valid != Fold(ok, subs).valid
    ensures ok(s) && !Burnt(ok, subs, s.auth.nonce)
            && forall p | p in Fold(ok, subs).valid :: Apart(Fold(ok, subs).valid[p], s)
    ensures Fold(ok, subs + [s]).valid == Fold(ok, subs).valid[s.auth.participant := s]
    ensures s.auth.participant !in Fold(ok, subs).valid
  {
    var st := Fold(ok, subs);
    assert (subs + [s])[..|subs|] == subs;
    FoldKeeps(ok, subs);
    RecordedNonces(ok, subs, s.auth.nonce);
    forall p | p in st.valid ensures Apart(st.valid[p], s) { assert Member(ok, st, p); }
  }

  /** One more submission. */
  lemma KeysAfterOne(ok: Check, subs: seq<EncryptedSubmission>, s: EncryptedSubmission)
    requires OneKeyEach(Fold(ok, subs))
    ensures OneKeyEach(Fold(ok, subs + [s])) <==> !SharesKey(ok, subs, s)
  {
    var st, next := Fold(ok, subs), Fold(ok, subs + [s]);
    if next.valid != st.valid { AdmittedWasApart(ok, subs, s); }
    if SharesKey(ok, subs, s) {
      AdmittedUnlessBurnt(ok, subs, s);
      var p :| p in st.valid && st.valid[p].auth.tradingKey == s.auth.tradingKey;
      FoldKeeps(ok, subs);
      assert Member(ok, st, p);
      AppendKeepsMembers(ok, subs, [s]);
      assert next.valid[p].auth.tradingKey == next.valid[s.auth.participant].auth.tradingKey;
    }
  }

  /** The members of a batch have distinct trading keys if and only if at no point of the list a submission was admitted
      beside a member with its key. Nothing in the loop prevents that. */
  lemma {:induction false} DistinctKeysIff(ok: Check, subs: seq<EncryptedSubmission>)
    ensures OneKeyEach(Fold(ok, subs)) <==> forall i | 0 <= i < |subs| :: !SharesKey(ok, subs[..i], subs[i])
  {
    if subs != [] {
      var n := |subs| - 1;
      var past := subs[..n];
      assert subs == past + [subs[n]];
      DistinctKeysIff(ok, past);
      forall i | 0 <= i < n ensures SharesKey(ok, past[..i], past[i]) == SharesKey(ok, subs[..i], subs[i]) {
        assert past[..i] == subs[..i];
      }
      if OneKeyEach(Fold(ok, past)) { KeysAfterOne(ok, past, subs[n]); } else { SharedKeysStay(ok, past, subs[n]); }
    }
  }

  lemma SharedKeysStay(ok: Check, subs: seq<EncryptedSubmission>, s: EncryptedSubmission)
    requires !OneKeyEach(Fold(ok, subs))
    ensures !OneKeyEach(Fold(ok, subs + [s]))
  {
    var st := Fold(ok, subs);
    var p, q :| p in st.valid && q in st.valid && p != q && st.valid[p].auth.tradingKey == st.valid[q].auth.tradingKey;
    AppendKeepsMembers(ok, subs, [s]);
    var next := Fold(ok, subs + [s]);
    assert next.valid[p].auth.tradingKey == next.valid[q].auth.tradingKey;
  }

  /** The smallest instance: two valid submissions with one trading key and nothing else in common are both admitted. */
  lemma SharedTradingKeyAdmitted(ok: Check, a: EncryptedSubmission, b: EncryptedSubmission)
    requires ok(a) && ok(b) && Apart(a, b) && a.auth.tradingKey == b.auth.tradingKey
    ensures SharesKey(ok, [a], b) && !OneKeyEach(Fold(ok, [a, b]))
    ensures Fold(ok, [a, b]).valid == map[a.auth.participant := a, b.auth.participant := b]
  {
    assert [a, b][..1] == [a] && [a][..0] == [] && [a] + [b] == [a, b];
    assert Fold(ok, [a]) == State(map[a.auth.participant := a], {a.auth.nonce}, {a.receipt});
    assert !Burns(ok, [a], 0);
    assert OneKeyEach(Fold(ok, [a]));
    KeysAfterOne(ok, [a], b);
    assert a.auth.participant in Fold(ok, [a]).valid;
  }
}
