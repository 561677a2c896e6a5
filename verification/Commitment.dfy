/** Set commitments: one digest for an unordered set of leaves under a protocol domain. */
module Commitment {
  import opened Bytes
  import opened Order

  datatype Domain = BalanceSet | MemberSet | ResultSet
  datatype CommitmentError = DuplicateLeaf

  const LEAF_TAG: seq<byte> := [75, 65, 71, 69, 66, 95, 76, 69, 65, 70, 95, 86, 49, 0]  // "KAGEB_LEAF_V1\0"
  const ROOT_TAG: seq<byte> := [75, 65, 71, 69, 66, 95, 82, 79, 79, 84, 95, 86, 49, 0]  // "KAGEB_ROOT_V1\0"

  function Tag(d: Domain): seq<byte> {
    match d
    // "KAGEB_BALANCE_SET_V1\0"
    case BalanceSet => [75, 65, 71, 69, 66, 95, 66, 65, 76, 65, 78, 67, 69, 95, 83, 69, 84, 95, 86, 49, 0]
    // "KAGEB_MEMBER_SET_V1\0"
    case MemberSet => [75, 65, 71, 69, 66, 95, 77, 69, 77, 66, 69, 82, 95, 83, 69, 84, 95, 86, 49, 0]
    // "KAGEB_RESULT_SET_V1\0"
    case ResultSet => [75, 65, 71, 69, 66, 95, 82, 69, 83, 85, 76, 84, 95, 83, 69, 84, 95, 86, 49, 0]
  }

  /** A byte string behind its length as a `u64`. */
  function Sized(s: seq<byte>): seq<byte> { Le(|s|, 8) + s }

  function LeafMessage(d: Domain, leaf: seq<byte>): seq<byte> { LEAF_TAG + Sized(Tag(d)) + Sized(leaf) }

  function RootMessage(d: Domain, hashes: seq<Bytes32>): seq<byte> {
    ROOT_TAG + Sized(Tag(d)) + (Le(|hashes|, 8) + EncodeAll(hashes, Raw))
  }

  function LeafHash(sha: Sha, d: Domain): seq<byte> -> Bytes32 { leaf => sha(LeafMessage(d, leaf)) }

  function RootHash(sha: Sha, d: Domain): seq<Bytes32> -> Bytes32 { hashes => sha(RootMessage(d, hashes)) }

  /** The root for any way of hashing leaves and roots. */
  ghost function RootOf(leafHash: seq<byte> -> Bytes32, rootHash: seq<Bytes32> -> Bytes32,
                        leaves: seq<seq<byte>>): Result<Bytes32, CommitmentError> {
    var hashes := Map(leaves, leafHash);
    if Distinct(hashes) then Ok(rootHash(Sort(hashes))) else Err(DuplicateLeaf)
  }

  ghost function ContentRootSpec(sha: Sha, d: Domain, leaves: seq<seq<byte>>): Result<Bytes32, CommitmentError> {
    RootOf(LeafHash(sha, d), RootHash(sha, d), leaves)
  }

  // ---- the loops ----

  method HashLeaves(leafHash: seq<byte> -> Bytes32, leaves: seq<seq<byte>>) returns (hashes: seq<Bytes32>)
    ensures hashes == Map(leaves, leafHash)
  {
    hashes := [];
    for i := 0 to |leaves|
      invariant |hashes| == i && forall k | 0 <= k < i :: hashes[k] == leafHash(leaves[k])
    {
      hashes := hashes + [leafHash(leaves[i])];
    }
  }

  method EqualNeighbours(s: seq<Bytes32>) returns (found: bool)
    ensures found == !NoEqualNeighbours(s)
  {
    var i := 1;
    while i < |s|
      invariant 1 <= i && (s != [] ==> i <= |s| && NoEqualNeighbours(s) == NoEqualNeighbours(s[i - 1..]))
    {
      assert s[i - 1..][0] == s[i - 1] && s[i - 1..][1] == s[i] && s[i - 1..][1..] == s[i..];
      if s[i - 1] == s[i] { return true; }
      i := i + 1;
    }
    return false;
  }

  /** The sorted hashes, unless two of them are equal. */
  method SortedHashes(leafHash: seq<byte> -> Bytes32, leaves: seq<seq<byte>>) returns (r: Option<seq<Bytes32>>)
    ensures r.Some? <==> Distinct(Map(leaves, leafHash))
    ensures r.Some? ==> r.value == Sort(Map(leaves, leafHash))
  {
    var hashes := HashLeaves(leafHash, leaves);
    DistinctWhenSorted(hashes);
    var repeated := EqualNeighbours(Sort(hashes));
    return if repeated then None else Some(Sort(hashes));
  }

  method HashRoot(sha: Sha, d: Domain, hashes: seq<Bytes32>) returns (r: Bytes32)
    ensures r == sha(RootMessage(d, hashes))
  {
    var fed := WriteAll(ROOT_TAG + Sized(Tag(d)) + Le(|hashes|, 8), hashes, Raw);
    Assoc(ROOT_TAG + Sized(Tag(d)), Le(|hashes|, 8), EncodeAll(hashes, Raw));
    return sha(fed);
  }

  /** `content_root`: hash the leaves, sort the hashes, refuse equal neighbours, hash the rest. */
  method ContentRoot(sha: Sha, d: Domain, leaves: seq<seq<byte>>) returns (r: Result<Bytes32, CommitmentError>)
    ensures r == ContentRootSpec(sha, d, leaves)
  {
    var hashes := SortedHashes(LeafHash(sha, d), leaves);
    if hashes.None? { return Err(DuplicateLeaf); }
    var root := HashRoot(sha, d, hashes.value);
    return Ok(root);
  }

  lemma DistinctWhenSorted(hashes: seq<Bytes32>)
    ensures NoEqualNeighbours(Sort(hashes)) <==> Distinct(hashes)
  {
    SortSorted(hashes);
    NeighboursDistinct(Sort(hashes));
    if Distinct(hashes) { DistinctByMultiset(hashes, Sort(hashes)); }
    if Distinct(Sort(hashes)) { DistinctByMultiset(Sort(hashes), hashes); }
  }

  // ---- what can be read off the hashed messages ----

  lemma SizedPrefix(a: seq<byte>, x: seq<byte>, b: seq<byte>, y: seq<byte>)
    requires |a| <= U64_MAX && |b| <= U64_MAX && Sized(a) + x == Sized(b) + y
    ensures a == b && x == y
  {
    var s := Sized(a) + x;
    assert Le(|a|, 8) == s[..8] && Le(|b|, 8) == s[..8];
    Pow256Values();
    LeInjective(|a|, |b|, 8);
    assert a == s[8..8 + |a|] && b == s[8..8 + |a|];
    assert x == s[8 + |a|..] && y == s[8 + |a|..];
  }

  lemma TagPrefix(tag: seq<byte>, c: seq<byte>, x: seq<byte>, d: seq<byte>, y: seq<byte>)
    requires tag + c + x == tag + d + y
    ensures c + x == d + y
  {
    var s := tag + c + x;
    assert c + x == s[|tag|..] && d + y == s[|tag|..];
  }

  lemma TagsDiffer()
    ensures |Tag(BalanceSet)| == 21 && |Tag(MemberSet)| == 20 && |Tag(ResultSet)| == 20
    ensures Tag(MemberSet)[6] != Tag(ResultSet)[6]
  {
  }

  lemma TagInjective(d: Domain, e: Domain)
    requires Tag(d) == Tag(e)
    ensures d == e
  {
    TagsDiffer();
  }

  lemma LeafMessageInjective(d: Domain, a: seq<byte>, b: seq<byte>)
    requires |a| <= U64_MAX && |b| <= U64_MAX && LeafMessage(d, a) == LeafMessage(d, b)
    ensures a == b
  {
    TagsDiffer();
    TagPrefix(LEAF_TAG, Sized(Tag(d)), Sized(a), Sized(Tag(d)), Sized(b));
    SizedPrefix(Tag(d), Sized(a), Tag(d), Sized(b));
    assert Sized(a) + [] == Sized(b) + [];
    SizedPrefix(a, [], b, []);
  }

  const GET_HASH: seq<byte> -> Option<Bytes32> := s => if |s| == 32 then Some(ReadBytes32(s)) else None

  lemma HashListInjective(a: seq<Bytes32>, b: seq<Bytes32>)
    requires |a| <= U64_MAX && |b| <= U64_MAX
    requires Le(|a|, 8) + EncodeAll(a, Raw) == Le(|b|, 8) + EncodeAll(b, Raw)
    ensures a == b
  {
    var s := Le(|a|, 8) + EncodeAll(a, Raw);
    assert Le(|a|, 8) == s[..8] && Le(|b|, 8) == s[..8];
    Pow256Values();
    LeInjective(|a|, |b|, 8);
    assert EncodeAll(a, Raw) == s[8..] && EncodeAll(b, Raw) == s[8..];
    DecodeEncodeAll(a, 32, Raw, GET_HASH);
    DecodeEncodeAll(b, 32, Raw, GET_HASH);
  }

  lemma RootMessageInjective(d: Domain, a: seq<Bytes32>, e: Domain, b: seq<Bytes32>)
    requires |a| <= U64_MAX && |b| <= U64_MAX && RootMessage(d, a) == RootMessage(e, b)
    ensures d == e && a == b
  {
    TagsDiffer();
    var x, y := Le(|a|, 8) + EncodeAll(a, Raw), Le(|b|, 8) + EncodeAll(b, Raw);
    TagPrefix(ROOT_TAG, Sized(Tag(d)), x, Sized(Tag(e)), y);
    SizedPrefix(Tag(d), x, Tag(e), y);
    TagInjective(d, e);
    HashListInjective(a, b);
  }

  // ---- what a root commits to ----

  /** The messages hashed when committing to `leaves`. */
  ghost function LeafMessages(d: Domain, leaves: seq<seq<byte>>): iset<seq<byte>> {
    iset leaf | leaf in leaves :: LeafMessage(d, leaf)
  }

  ghost function Hashed(sha: Sha, d: Domain, leaves: seq<seq<byte>>): iset<seq<byte>> {
    LeafMessages(d, leaves) + iset{RootMessage(d, Sort(Map(leaves, LeafHash(sha, d))))}
  }

  ghost predicate Short(leaves: seq<seq<byte>>) {
    |leaves| <= U64_MAX && forall leaf | leaf in leaves :: |leaf| <= U64_MAX
  }

  lemma MessageAmong(d: Domain, leaves: seq<seq<byte>>, leaf: seq<byte>)
    requires leaf in leaves
    ensures LeafMessage(d, leaf) in LeafMessages(d, leaves)
  {
  }

  lemma HashInjective(sha: Sha, msgs: iset<seq<byte>>, d: Domain, a: seq<byte>, b: seq<byte>)
    requires Sound(sha, msgs) && LeafMessage(d, a) in msgs && LeafMessage(d, b) in msgs
    requires |a| <= U64_MAX && |b| <= U64_MAX && LeafHash(sha, d)(a) == LeafHash(sha, d)(b)
    ensures a == b
  {
    LeafMessageInjective(d, a, b);
  }

  lemma HashesInjective(sha: Sha, msgs: iset<seq<byte>>, d: Domain, a: seq<seq<byte>>, b: seq<seq<byte>>)
    requires Sound(sha, msgs) && LeafMessages(d, a) <= msgs && LeafMessages(d, b) <= msgs && Short(a) && Short(b)
    ensures InjectiveOn(LeafHash(sha, d), a, b)
  {
    forall x, y | x in a && y in b && LeafHash(sha, d)(x) == LeafHash(sha, d)(y) ensures x == y {
      MessageAmong(d, a, x);
      MessageAmong(d, b, y);
      HashInjective(sha, msgs, d, x, y);
    }
  }

  /** A list is refused exactly when a leaf is repeated. */
  lemma RefusesExactlyDuplicates(sha: Sha, d: Domain, leaves: seq<seq<byte>>)
    requires Sound(sha, Hashed(sha, d, leaves)) && Short(leaves)
    ensures ContentRootSpec(sha, d, leaves).Ok? <==> Distinct(leaves)
  {
    HashesInjective(sha, Hashed(sha, d, leaves), d, leaves, leaves);
    MapDistinct(leaves, LeafHash(sha, d));
  }

  lemma SameRootWhen(leafHash: seq<byte> -> Bytes32, rootHash: seq<Bytes32> -> Bytes32, a: seq<seq<byte>>,
                     b: seq<seq<byte>>)
    requires InjectiveOn(leafHash, a, a) && InjectiveOn(leafHash, b, b) && InjectiveOn(leafHash, a, b)
    requires rootHash(Sort(Map(a, leafHash))) == rootHash(Sort(Map(b, leafHash)))
             ==> Sort(Map(a, leafHash)) == Sort(Map(b, leafHash))
    requires RootOf(leafHash, rootHash, a).Ok? && RootOf(leafHash, rootHash, b).Ok?
    ensures RootOf(leafHash, rootHash, a) == RootOf(leafHash, rootHash, b) <==> multiset(a) == multiset(b)
  {
    MapDistinct(a, leafHash);
    MapDistinct(b, leafHash);
    MapPermuted(a, b, leafHash);
    SortEqual(Map(a, leafHash), Map(b, leafHash));
  }

  lemma RootsInjective(sha: Sha, d: Domain, a: seq<seq<byte>>, e: Domain, b: seq<seq<byte>>)
    requires Sound(sha, Hashed(sha, d, a) + Hashed(sha, e, b)) && Short(a) && Short(b)
    requires RootHash(sha, d)(Sort(Map(a, LeafHash(sha, d)))) == RootHash(sha, e)(Sort(Map(b, LeafHash(sha, e))))
    ensures d == e && Sort(Map(a, LeafHash(sha, d))) == Sort(Map(b, LeafHash(sha, e)))
  {
    var x, y := Sort(Map(a, LeafHash(sha, d))), Sort(Map(b, LeafHash(sha, e)));
    assert RootMessage(d, x) in Hashed(sha, d, a) && RootMessage(e, y) in Hashed(sha, e, b);
    RootMessageInjective(d, x, e, y);
  }

  /** Under one domain two accepted lists share a root exactly when they are permutations of each other. */
  lemma SameRootIffPermutation(sha: Sha, d: Domain, a: seq<seq<byte>>, b: seq<seq<byte>>)
    requires Sound(sha, Hashed(sha, d, a) + Hashed(sha, d, b)) && Short(a) && Short(b)
    requires ContentRootSpec(sha, d, a).Ok? && ContentRootSpec(sha, d, b).Ok?
    ensures ContentRootSpec(sha, d, a) == ContentRootSpec(sha, d, b) <==> multiset(a) == multiset(b)
  {
    var msgs := Hashed(sha, d, a) + Hashed(sha, d, b);
    HashesInjective(sha, msgs, d, a, a);
    HashesInjective(sha, msgs, d, b, b);
    HashesInjective(sha, msgs, d, a, b);
    var x, y := Sort(Map(a, LeafHash(sha, d))), Sort(Map(b, LeafHash(sha, d)));
    if RootHash(sha, d)(x) == RootHash(sha, d)(y) { RootsInjective(sha, d, a, d, b); }
    SameRootWhen(LeafHash(sha, d), RootHash(sha, d), a, b);
  }

  /** Different domains never share a root. */
  lemma DomainsSeparate(sha: Sha, d: Domain, e: Domain, a: seq<seq<byte>>, b: seq<seq<byte>>)
    requires Sound(sha, Hashed(sha, d, a) + Hashed(sha, e, b)) && Short(a) && Short(b)
    requires ContentRootSpec(sha, d, a).Ok? && ContentRootSpec(sha, d, a) == ContentRootSpec(sha, e, b)
    ensures d == e
  {
    RootsInjective(sha, d, a, e, b);
  }
}
