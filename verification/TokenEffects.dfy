/** The token legs of a settlement: what the program emits, and what the observer and the evidence check accept. */
module TokenEffects {
  import opened Bytes
  import opened ChainState
  import opened Program
  import opened Quorum
  import L = Ledger

  datatype Transfer = Transfer(source: Bytes32, mint: Bytes32, target: Bytes32, authority: Bytes32, amount: u64)

  /** The token accounts a settlement names. */
  datatype Venue = Venue(poolBase: Bytes32, poolQuote: Bytes32, venueBase: Bytes32, venueQuote: Bytes32,
                         baseMint: Bytes32,
                         quoteMint: Bytes32, vaultAuthority: Bytes32, venueAuthority: Bytes32)

  // ---- what the program emits ----

  /** The transfers of `settle`, in order. */
  function Emitted(v: Venue, side: byte, base: u64, quote: u64): seq<Transfer> {
    if side == 1 then
      [Transfer(v.poolQuote, v.quoteMint, v.venueQuote, v.vaultAuthority, quote),
       Transfer(v.venueBase, v.baseMint, v.poolBase, v.venueAuthority, base)]
    else if side == 2 then
      [Transfer(v.poolBase, v.baseMint, v.venueBase, v.vaultAuthority, base),
       Transfer(v.venueQuote, v.quoteMint, v.poolQuote, v.venueAuthority, quote)]
    else []
  }

  type Balances = map<Bytes32, u64>

  function Apply(b: Balances, t: Transfer): Option<Balances> {
    if t.source !in b || t.target !in b || b[t.source] < t.amount || b[t.target] + t.amount > U64_MAX then None
    else Some(b[t.source := b[t.source] - t.amount][t.target := b[t.target] + t.amount])
  }

  function ApplyAll(b: Balances, ts: seq<Transfer>): Option<Balances> {
    if ts == [] then Some(b)
    else
      match Apply(b, ts[0])
      case None => None
      case Some(next) => ApplyAll(next, ts[1..])
  }

  predicate FourAccounts(v: Venue) {
    && v.poolBase != v.poolQuote && v.poolBase != v.venueBase && v.poolBase != v.venueQuote
    && v.poolQuote != v.venueBase && v.poolQuote != v.venueQuote && v.venueBase != v.venueQuote
  }

  function Holding(v: Venue, t: Tokens): Balances {
    map[v.poolBase := t.poolBase, v.poolQuote := t.poolQuote, v.venueBase := t.venueBase, v.venueQuote := t.venueQuote]
  }

  /** The legs of the program are the emitted transfers carried out one after the other, and fail together with them. */
  lemma LegsAreTransfers(v: Venue, t: Tokens, side: byte, base: u64, quote: u64)
    requires FourAccounts(v)
    ensures ApplyAll(Holding(v, t), Emitted(v, side, base, quote)) ==
            match Legs(t, side, base, quote)
            case None => None
            case Some(next) => Some(Holding(v, next))
  {
    var ts := Emitted(v, side, base, quote);
    var b := Holding(v, t);
    if ts != [] {
      var next := Apply(b, ts[0]);
      if next.Some? {
        assert ts[1..] == [ts[1]] && ts[1..][1..] == [];
        var last := Apply(next.value, ts[1]);
        assert ApplyAll(next.value, ts[1..]) == last;
        if last.Some? { assert last.value == Holding(v, Legs(t, side, base, quote).value); }
      }
    }
  }

  // ---- what the observer accepts ----

  datatype TokenOp = TransferChecked(amount: u64, decimals: byte) | OtherOp
  /** An inner instruction as the RPC reports it; `op` is its decoded data. */
  datatype Inner = Compiled(programIndex: byte, accounts: seq<byte>, op: Option<TokenOp>) | Parsed
  datatype Group = Group(index: byte, instructions: seq<Inner>)

  function KeyAt(keys: seq<Bytes32>, i: byte): Option<Bytes32> {
    if i as int < |keys| then Some(keys[i as int]) else None
  }

  /** The transfer an inner instruction stands for, if it is one of the token program's. */
  function Resolve(tokenProgram: Bytes32, keys: seq<Bytes32>, ix: Inner): Option<Transfer> {
    if !ix.Compiled? || KeyAt(keys, ix.programIndex) != Some(tokenProgram) || |ix.accounts| != 4 then None
    else if exists i | 0 <= i < 4 :: KeyAt(keys, ix.accounts[i]).None? then None
    else if ix.op.None? || !ix.op.value.TransferChecked? || ix.op.value.decimals != 0 then None
    else Some(Transfer(KeyAt(keys, ix.accounts[0]).value, KeyAt(keys, ix.accounts[1]).value,
      KeyAt(keys, ix.accounts[2]).value,
                       KeyAt(keys, ix.accounts[3]).value, ix.op.value.amount))
  }

  ghost predicate Shows(tokenProgram: Bytes32, keys: seq<Bytes32>, ixs: seq<Inner>, ts: seq<Transfer>) {
    |ixs| == |ts| && forall i | 0 <= i < |ts| :: Resolve(tokenProgram, keys, ixs[i]) == Some(ts[i])
  }

  /** The recorded inner instructions are exactly `ts`: one group of the settlement instruction, or no group for
      none. */
  ghost predicate Recorded(tokenProgram: Bytes32, keys: seq<Bytes32>, inner: seq<Group>, index: byte,
                           ts: seq<Transfer>) {
    || (inner == [] && ts == [])
    || (|inner| == 1 && inner[0].index == index && Shows(tokenProgram, keys, inner[0].instructions, ts))
  }

  method RequireTransfer(tokenProgram: Bytes32, keys: seq<Bytes32>, ix: Inner, t: Transfer) returns (ok: bool)
    ensures ok == (Resolve(tokenProgram, keys, ix) == Some(t))
  {
    if !ix.Compiled? || KeyAt(keys, ix.programIndex) != Some(tokenProgram) || |ix.accounts| != 4 { return false; }
    var expected := [t.source, t.mint, t.target, t.authority];
    for i := 0 to 4
      invariant forall j | 0 <= j < i :: KeyAt(keys, ix.accounts[j]) == Some(expected[j])
    {
      if KeyAt(keys, ix.accounts[i]) != Some(expected[i]) { return false; }
    }
    return ix.op.Some? && ix.op.value.TransferChecked? && ix.op.value.decimals == 0 && ix.op.value.amount == t.amount;
  }

  /** `validate_settlement_token_effects`: accepts exactly the transfers the program emits for this residual. */
  method ValidateEffects(tokenProgram: Bytes32, keys: seq<Bytes32>, inner: seq<Group>, index: byte, v: Venue,
                         baseLot: u64, quotePerLot: u64, residual: L.Residual) returns (ok: bool)
    ensures var base, quote := Times(L.ResidualLots(residual), baseLot), Times(L.ResidualLots(residual), quotePerLot);
            ok <==> 0 <= base <= U64_MAX && 0 <= quote <= U64_MAX
                    && Recorded(tokenProgram, keys, inner, index, Emitted(v, L.ResidualSide(residual), base, quote))
  {
    TimesNonNegative(L.ResidualLots(residual), baseLot);
    TimesNonNegative(L.ResidualLots(residual), quotePerLot);
    var base, quote := Times(L.ResidualLots(residual), baseLot), Times(L.ResidualLots(residual), quotePerLot);
    if base > U64_MAX || quote > U64_MAX { return false; }
    var expected := Emitted(v, L.ResidualSide(residual), base, quote);
    if inner == [] && expected == [] { return true; }
    if |inner| != 1 || inner[0].index != index || |inner[0].instructions| != |expected| { return false; }
    for i := 0 to |expected|
      invariant forall j | 0 <= j < i :: Resolve(tokenProgram, keys, inner[0].instructions[j]) == Some(expected[j])
    {
      var same := RequireTransfer(tokenProgram, keys, inner[0].instructions[i], expected[i]);
      if !same { return false; }
    }
    return true;
  }

  /** A recording shows one list of transfers only, so no other effect is ever accepted in its place. */
  lemma RecordedUnique(tokenProgram: Bytes32, keys: seq<Bytes32>, inner: seq<Group>, index: byte, a: seq<Transfer>,
                       b: seq<Transfer>)
    requires Recorded(tokenProgram, keys, inner, index, a) && Recorded(tokenProgram, keys, inner, index, b)
    ensures a == b
  {
    if inner != [] {
      forall i | 0 <= i < |a| ensures a[i] == b[i] {
        assert Resolve(tokenProgram, keys, inner[0].instructions[i]) == Some(a[i]);
      }
    }
  }

  // ---- the settlement instruction inside its transaction ----

  /** Strict verifier instructions first, then the one program instruction, and nothing else. */
  ghost predicate ExactlyOne(verifier: Bytes32, programId: Bytes32, discriminator: byte, ixs: seq<Instruction>) {
    && 0 < |ixs| <= 256
    && (forall i | 0 <= i < |ixs| - 1 :: ParseStrict(verifier, ixs[i]).Some?)
    && ixs[|ixs| - 1].program == programId && |ixs[|ixs| - 1].data| > 0 && ixs[|ixs| - 1].data[0] == discriminator
  }

  /** `exact_kageb_instruction`: the index of the program's instruction, which is the number of approvals before it. */
  method ExactInstruction(verifier: Bytes32, programId: Bytes32, discriminator: byte, ixs: seq<Instruction>)
    returns (r: Option<nat>)
    requires verifier != programId
    ensures r.Some? <==> ExactlyOne(verifier, programId, discriminator, ixs)
    ensures r.Some? ==> r.value == |ixs| - 1
  {
    var found: Option<nat>, approvals := None, 0;
    for index := 0 to |ixs|
      invariant found.None?
                ==> approvals == index <= 255 && forall i | 0 <= i < index :: ParseStrict(verifier, ixs[i]).Some?
      invariant found.Some? ==> found.value == index - 1 && ExactlyOne(verifier, programId, discriminator, ixs[..index])
    {
      var ix := ixs[index];
      assert forall i | 0 <= i < index :: ixs[..index][i] == ixs[i];
      if ix.program == verifier {
        if found.Some? || ParseStrict(verifier, ix).None? { return None; }
        if approvals == 255 { return None; }
        approvals := approvals + 1;
      } else if ix.program == programId {
        if found.Some? || |ix.data| == 0 || ix.data[0] != discriminator || index != approvals { return None; }
        found := Some(index);
        assert ixs[..index + 1][index] == ix;
      } else {
        return None;
      }
    }
    assert ixs[..|ixs|] == ixs;
    return found;
  }

  // ---- what the evidence check accepts ----

  predicate DeltasMatch(before: Tokens, after: Tokens, side: byte, base: int, quote: int) {
    var b, q := if side == 1 then base
      else if side == 2 then -base else 0, if side == 1 then quote else if side == 2 then -quote else 0;
    && after.poolBase - before.poolBase == b && after.poolQuote - before.poolQuote == 0 - q
    && after.venueBase - before.venueBase == 0 - b && after.venueQuote - before.venueQuote == q
  }

  /** `validate_token_deltas`, once the recorded balances equal the public snapshot's. */
  function AcceptsDeltas(before: Tokens, after: Tokens, e: EpochState): bool {
    var base, quote := Times(e.residualLots, e.baseLot), Times(e.residualLots, e.quotePerLot);
    && before.poolBase + before.venueBase <= U64_MAX && after.poolBase + after.venueBase <= U64_MAX
    && before.poolQuote + before.venueQuote <= U64_MAX && after.poolQuote + after.venueQuote <= U64_MAX
    && before.poolBase + before.venueBase == after.poolBase + after.venueBase
    && before.poolQuote + before.venueQuote == after.poolQuote + after.venueQuote
    && base <= U64_MAX && quote <= U64_MAX && ValidResidual(e.residualSide, e.residualLots)
    && DeltasMatch(before, after, e.residualSide, base, quote)
  }

  /** The deltas accepted for a settled epoch are exactly those its legs produce. */
  lemma DeltasAreLegs(before: Tokens, after: Tokens, e: EpochState)
    requires before.poolBase + before.venueBase <= U64_MAX && before.poolQuote + before.venueQuote <= U64_MAX
    ensures var base, quote := Times(e.residualLots, e.baseLot), Times(e.residualLots, e.quotePerLot);
            AcceptsDeltas(before, after, e) <==>
            ValidResidual(e.residualSide, e.residualLots) && 0 <= base <= U64_MAX && 0 <= quote <= U64_MAX
            && Legs(before, e.residualSide, base, quote) == Some(after)
  {
    TimesNonNegative(e.residualLots, e.baseLot);
    TimesNonNegative(e.residualLots, e.quotePerLot);
  }
}
