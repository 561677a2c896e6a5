/** The host side of a settlement: finalising one's own recomputation is finalising what the chain settled. */
module Finalised {
  import opened Bytes
  import opened ChainState
  import P = ProgramRuns
  import Pr = Program
  import HC = HostChain
  import LP = LockPackage
  import S = KeyperSafety
  import Recovery
  import St = Settlement
  import opened SettlementRuns
  import Accounts
  import JournalRuns
  import Solvency
  import Custody

  /** The lots of an accepted package are those of the epoch whose lock it was accepted against. */
  lemma PackageLots(u: Setup, w: World, key: Bytes32, p: LP.Package, g: HC.ConfirmedLock)
    requires ChainWell(u, w.base) && key in w.base.chain.epochs && g in w.base.locks && g.epochAccount == key
    requires LP.ValidateLockedSpec(u.env.crypto, p, g).Ok?
    ensures p.configuration.baseLot == w.base.chain.epochs[key].baseLot
            && p.configuration.quotePerLot == w.base.chain.epochs[key].quotePerLot
  {
    assert P.EpochInv(u.env.ctx, key, w.base.chain.epochs[key]) && S.LockRead(u.env, w.base, g);
    LP.ValidateLockedMeans(u.env.crypto, p, g);
  }

  lemma KeyOfEpoch(u: Setup, w: World, key: Bytes32)
    requires ChainWell(u, w.base) && key in w.base.chain.epochs
    ensures u.env.ctx.pda.epoch(u.env.ctx.poolKey, w.base.chain.epochs[key].epochId) == key
  {
    assert P.EpochInv(u.env.ctx, key, w.base.chain.epochs[key]);
  }

  /** The call finalises the netting of this recomputation. */
  ghost predicate Finalises(op: JournalRuns.Op, p: LP.Package, m: St.Recomputed) {
    op.Finalize? && op.cfg == St.ConfigOf(p) && Solvency.Netted(op.cfg, op.result) && op.result.residual == m.residual
  }

  /** In every honest run: finalising one's own recomputation of a settled epoch, made against any read of its lock, is
      finalising what the chain settled. */
  lemma FinalisedAsSettled(u: Setup, plain: (seq<byte>, seq<byte>) -> Option<seq<byte>>, tokens: Pr.Tokens,
                           steps: seq<Step>, key: Bytes32,
                           p: LP.Package, evs: seq<Recovery.Evidence>, nonce: Bytes32, g: HC.ConfirmedLock,
                           op: JournalRuns.Op)
    requires HonestRun(u, Start(tokens), steps) && u.env.crypto.sha == u.env.ctx.sha
    requires var w := Run(u, Start(tokens), steps);
             && key in w.base.chain.epochs && w.base.chain.epochs[key].terminal == Settled
             && SettlementsSound(u, w, Stored(u, key, w.base.chain.epochs[key]))
             && Comparable(u, w, plain, p) && g in w.base.locks && g.epochAccount == key
    requires var m := St.RecomputeSpec(u.env.crypto, u.threshold, p, evs, nonce, g); m.Ok? && Finalises(op, p, m.value)
    ensures var c := Run(u, Start(tokens), steps).base.chain; Custody.SettledAs(u.env.ctx, c, c.epochs[key].epochId, op)
  {
    var w := Run(u, Start(tokens), steps);
    StartInv(u, tokens);
    RunInv(u, Start(tokens), steps);
    SettledAsAnyoneRecomputes(u, plain, tokens, steps, key, p, evs, nonce, g);
    PackageLots(u, w, key, p, g);
    KeyOfEpoch(u, w, key);
  }

  // ---- the vault, with nothing assumed about what the host finalises but that it recomputed it ----

  lemma {:induction false} WorldVault(u: Setup, start: Pr.Tokens, w: World, steps: seq<Step>)
    requires P.VaultInv(start, w.base.chain)
    ensures P.VaultInv(start, Run(u, w, steps).base.chain)
    decreases |steps|
  {
    if steps != [] {
      var step := steps[0];
      if step.Other? && step.step.OnChain? {
        P.StepVault(u.env.ctx, start, w.base.chain, step.step.step);
      } else if step.Other? {
        S.ChainStays(u.env, w.base, step.step);
      }
      WorldVault(u, start, Exec(u, w, step), steps[1..]);
    }
  }

  /** The call finalises what its caller recomputed of settled epoch `id` against a read of its lock. */
  ghost predicate FinalisesOwn(u: Setup, plain: (seq<byte>, seq<byte>) -> Option<seq<byte>>, w: World, id: Bytes32,
                               op: JournalRuns.Op) {
    var key := u.env.ctx.pda.epoch(u.env.ctx.poolKey, id);
    && key in w.base.chain.epochs && w.base.chain.epochs[key].terminal == Settled
       && w.base.chain.epochs[key].epochId == id
    && SettlementsSound(u, w, Stored(u, key, w.base.chain.epochs[key]))
    && exists p, evs, nonce, g :: OwnRecomputation(u, plain, w, key, p, evs, nonce, g, op)
  }

  ghost predicate OwnRecomputation(u: Setup, plain: (seq<byte>, seq<byte>) -> Option<seq<byte>>, w: World, key: Bytes32,
                                   p: LP.Package, evs: seq<Recovery.Evidence>, nonce: Bytes32, g: HC.ConfirmedLock,
                                   op: JournalRuns.Op) {
    var m := St.RecomputeSpec(u.env.crypto, u.threshold, p, evs, nonce, g);
    Comparable(u, w, plain, p) && g in w.base.locks && g.epochAccount == key && m.Ok? && Finalises(op, p, m.value)
  }

  lemma OwnIsSettled(u: Setup, plain: (seq<byte>, seq<byte>) -> Option<seq<byte>>, tokens: Pr.Tokens, steps: seq<Step>,
                     id: Bytes32, op: JournalRuns.Op)
    requires HonestRun(u, Start(tokens), steps) && u.env.crypto.sha == u.env.ctx.sha
    requires FinalisesOwn(u, plain, Run(u, Start(tokens), steps), id, op)
    ensures Custody.SettledAs(u.env.ctx, Run(u, Start(tokens), steps).base.chain, id, op)
  {
    var w, key := Run(u, Start(tokens), steps), u.env.ctx.pda.epoch(u.env.ctx.poolKey, id);
    var p, evs, nonce, g :| OwnRecomputation(u, plain, w, key, p, evs, nonce, g, op);
    FinalisedAsSettled(u, plain, tokens, steps, key, p, evs, nonce, g, op);
  }

  ghost predicate AllOwn(u: Setup, plain: (seq<byte>, seq<byte>) -> Option<seq<byte>>, w: World,
                         committed: map<Bytes32, JournalRuns.Op>) {
    forall id | id in committed :: FinalisesOwn(u, plain, w, id, committed[id])
  }

  lemma AllOwnSettled(u: Setup, plain: (seq<byte>, seq<byte>) -> Option<seq<byte>>, tokens: Pr.Tokens, steps: seq<Step>,
                      committed: map<Bytes32, JournalRuns.Op>)
    requires HonestRun(u, Start(tokens), steps) && u.env.crypto.sha == u.env.ctx.sha
    requires AllOwn(u, plain, Run(u, Start(tokens), steps), committed)
    ensures Custody.AllSettled(u.env.ctx, Run(u, Start(tokens), steps).base.chain, committed)
  {
    forall id | id in committed ensures Custody.SettledAs(u.env.ctx, Run(u, Start(tokens), steps).base.chain, id,
        committed[id]) {
      OwnIsSettled(u, plain, tokens, steps, id, committed[id]);
    }
  }

  lemma WorldChain(u: Setup, tokens: Pr.Tokens, steps: seq<Step>)
    requires HonestRun(u, Start(tokens), steps)
    ensures P.VaultInv(tokens, Run(u, Start(tokens), steps).base.chain)
    ensures P.AllEpochs(u.env.ctx, Run(u, Start(tokens), steps).base.chain)
  {
    StartInv(u, tokens);
    RunInv(u, Start(tokens), steps);
    P.VaultConservation(u.env.ctx, tokens, []);
    WorldVault(u, tokens, Start(tokens), steps);
  }

  /** Keypers, chain and journals together: if settlement signatures come only from `sign_settlement` and the host
      finalises only its own recomputations of settled epochs, the pool's vault minus the stored balances changes,
      beyond deposits, only by what is settled and not yet finalised. */
  lemma VaultMinusRecomputedLedger(u: Setup, plain: (seq<byte>, seq<byte>) -> Option<seq<byte>>, tokens: Pr.Tokens,
                                   world: seq<Step>, dig: Accounts.Digester, journals: seq<JournalRuns.Step>,
                                   a: Solvency.Asset)
    requires HonestRun(u, Start(tokens), world) && u.env.crypto.sha == u.env.ctx.sha
    requires Custody.AllNetted(journals)
    requires AllOwn(u, plain, Run(u, Start(tokens), world), Custody.RunTally(dig, Custody.NOTHING, journals).committed)
    ensures Custody.VaultBalanced(u.env.ctx, tokens, Run(u, Start(tokens), world).base.chain,
                             Custody.RunTally(dig, Custody.NOTHING, journals), a)
  {
    AllOwnSettled(u, plain, tokens, world, Custody.RunTally(dig, Custody.NOTHING, journals).committed);
    WorldChain(u, tokens, world);
    Custody.VaultAgainst(u.env.ctx, tokens, Run(u, Start(tokens), world).base.chain, dig, journals, a);
  }
}
