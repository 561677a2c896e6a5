/** Counting keyper approvals among a transaction's Ed25519 verifier instructions. */
module Quorum {
  import opened Bytes
  import opened Wire

  datatype Instruction = Instruction(program: Bytes32, accounts: nat, data: seq<byte>)
  datatype Approval = Approval(signer: Bytes32, digest: Bytes32)

  function U16At(data: seq<byte>, offset: nat): int
    requires offset + 2 <= |data|
  {
    data[offset] as int + 256 * data[offset + 1] as int
  }

  /** `parse_strict_ed25519`: one signature, everything inside this instruction at the fixed offsets. */
  function ParseStrict(verifier: Bytes32, ix: Instruction): Option<Approval> {
    var d := ix.data;
    if ix.program != verifier || ix.accounts != 0 || |d| != 144 || d[0] != 1 || d[1] != 0
       || U16At(d, 2) != 48 || U16At(d, 4) != 0xFFFF || U16At(d, 6) != 16 || U16At(d, 8) != 0xFFFF
       || U16At(d, 10) != 112 || U16At(d, 12) != 32 || U16At(d, 14) != 0xFFFF
    then None
    else Some(Approval(ReadBytes32(d[16..48]), ReadBytes32(d[112..144])))
  }

  predicate Approves(verifier: Bytes32, ix: Instruction, digest: Bytes32, signer: Bytes32) {
    ParseStrict(verifier, ix) == Some(Approval(signer, digest))
  }

  /** The keys that some instruction shows to have signed `digest`. */
  ghost predicate Signed(verifier: Bytes32, ixs: seq<Instruction>, digest: Bytes32, signer: Bytes32) {
    exists i | 0 <= i < |ixs| :: Approves(verifier, ixs[i], digest, signer)
  }

  ghost function Approvers(verifier: Bytes32, ixs: seq<Instruction>, keypers: Keypers, digest: Bytes32): set<Bytes32> {
    set k | k in {keypers.k0, keypers.k1, keypers.k2} && Signed(verifier, ixs, digest, k)
  }

  /** The number the program compares with its thresholds: distinct keypers, however often each one signed. */
  ghost function Count(verifier: Bytes32, ixs: seq<Instruction>, keypers: Keypers, digest: Bytes32): nat {
    |Approvers(verifier, ixs, keypers, digest)|
  }

  function Key(keypers: Keypers, i: nat): Bytes32
    requires i < 3
  {
    if i == 0 then keypers.k0 else if i == 1 then keypers.k1 else keypers.k2
  }

  /** `position`: the first index of a keyper. */
  function Position(keypers: Keypers, k: Bytes32): (r: Option<nat>)
    ensures r.Some? ==> r.value < 3 && Key(keypers, r.value) == k && forall j | 0 <= j < r.value :: Key(keypers, j) != k
    ensures r.None? ==> k !in {keypers.k0, keypers.k1, keypers.k2}
  {
    if keypers.k0 == k then Some(0) else if keypers.k1 == k then Some(1) else if keypers.k2 == k then Some(2) else None
  }

  /** What `matched[i]` means after the instructions seen so far. */
  ghost predicate Marked(verifier: Bytes32, ixs: seq<Instruction>, keypers: Keypers, digest: Bytes32, i: nat)
    requires i < 3
  {
    Position(keypers, Key(keypers, i)) == Some(i) && Signed(verifier, ixs, digest, Key(keypers, i))
  }

  lemma SignedExtend(verifier: Bytes32, ixs: seq<Instruction>, ix: Instruction, digest: Bytes32, k: Bytes32)
    ensures Signed(verifier, ixs + [ix], digest, k)
            <==> Signed(verifier, ixs, digest, k) || Approves(verifier, ix, digest, k)
  {
    var all := ixs + [ix];
    if Signed(verifier, ixs, digest, k) {
      var i :| 0 <= i < |ixs| && Approves(verifier, ixs[i], digest, k);
      assert all[i] == ixs[i];
    }
    if Approves(verifier, ix, digest, k) { assert all[|ixs|] == ix; }
    if Signed(verifier, all, digest, k) {
      var i :| 0 <= i < |all| && Approves(verifier, all[i], digest, k);
      if i < |ixs| { assert ixs[i] == all[i]; }
    }
  }

  function One(b: bool): nat { if b then 1 else 0 }

  lemma CountWithout(s: set<Bytes32>, k: Bytes32)
    ensures |s| == |s - {k}| + One(k in s)
  {
    if k !in s { assert s - {k} == s; }
  }

  lemma CountThree(k: Keypers, s: set<Bytes32>)
    requires s <= {k.k0, k.k1, k.k2}
    ensures |s| == One(k.k0 in s) + One(k.k1 in s && k.k1 != k.k0) + One(k.k2 in s && k.k2 != k.k0 && k.k2 != k.k1)
  {
    CountWithout(s, k.k0);
    CountWithout(s - {k.k0}, k.k1);
    CountWithout(s - {k.k0} - {k.k1}, k.k2);
    assert s - {k.k0} - {k.k1} - {k.k2} == {};
  }

  /** Counting marks counts approving keypers, each once. */
  lemma MarksCount(verifier: Bytes32, ixs: seq<Instruction>, keypers: Keypers, digest: Bytes32, m0: bool, m1: bool,
                   m2: bool)
    requires m0 == Marked(verifier, ixs, keypers, digest, 0)
    requires m1 == Marked(verifier, ixs, keypers, digest, 1)
    requires m2 == Marked(verifier, ixs, keypers, digest, 2)
    ensures One(m0) + One(m1) + One(m2) == Count(verifier, ixs, keypers, digest)
  {
    CountThree(keypers, Approvers(verifier, ixs, keypers, digest));
  }

  /** `count_matching_keypers` and `count_preceding_keypers`, which differ only in where the instructions come from. */
  method CountMatching(verifier: Bytes32, ixs: seq<Instruction>, keypers: Keypers, digest: Bytes32) returns (n: nat)
    ensures n == Count(verifier, ixs, keypers, digest)
  {
    var matched := new bool[3](_ => false);
    for i := 0 to |ixs|
      invariant forall j | 0 <= j < 3 :: matched[j] == Marked(verifier, ixs[..i], keypers, digest, j)
    {
      assert ixs[..i + 1] == ixs[..i] + [ixs[i]];
      forall j | 0 <= j < 3 { SignedExtend(verifier, ixs[..i], ixs[i], digest, Key(keypers, j)); }
      var parsed := ParseStrict(verifier, ixs[i]);
      if parsed.Some? && parsed.value.digest == digest {
        var index := Position(keypers, parsed.value.signer);
        if index.Some? { matched[index.value] := true; }
      }
    }
    assert ixs[..|ixs|] == ixs;
    MarksCount(verifier, ixs, keypers, digest, matched[0], matched[1], matched[2]);
    return One(matched[0]) + One(matched[1]) + One(matched[2]);
  }
}
