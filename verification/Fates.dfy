/** The chain decides an epoch once, and the journals follow it: no epoch is both committed and released. */
module Fates {
  import opened Bytes
  import opened ChainState
  import opened Accounts
  import opened JournalRuns
  import opened Commits
  import Pr = Program
  import P = ProgramRuns

  ghost function Reached(ctx: Pr.Context, start: Pr.Tokens, onChain: seq<P.Step>, i: nat): Pr.Chain
    requires i <= |onChain|
  {
    P.Run(ctx, Pr.Chain(map[], start), onChain[..i])
  }

  /** At some point of the run the epoch account of `id` is in state `t`. */
  ghost predicate Ever(ctx: Pr.Context, start: Pr.Tokens, onChain: seq<P.Step>, id: Bytes32, t: Terminal) {
    exists i | 0 <= i <= |onChain| :: In(ctx, Reached(ctx, start, onChain, i), id, t)
  }

  ghost predicate In(ctx: Pr.Context, c: Pr.Chain, id: Bytes32, t: Terminal) {
    var key := ctx.pda.epoch(ctx.poolKey, id);
    key in c.epochs && c.epochs[key].terminal == t
  }

  /** The ids a finalisation may name, and those a release capability can be obtained for. */
  ghost function SettledEver(ctx: Pr.Context, start: Pr.Tokens, onChain: seq<P.Step>): iset<Bytes32> {
    iset id | Ever(ctx, start, onChain, id, Settled)
  }

  ghost function FailedEver(ctx: Pr.Context, start: Pr.Tokens, onChain: seq<P.Step>): iset<Bytes32> {
    iset id | Ever(ctx, start, onChain, id, Expired) || Ever(ctx, start, onChain, id, Aborted)
  }

  /** A final state stays. */
  lemma FinalStays(ctx: Pr.Context, start: Pr.Tokens, onChain: seq<P.Step>, id: Bytes32, t: Terminal, i: nat, j: nat)
    requires i <= j <= |onChain| && P.Final(t) && In(ctx, Reached(ctx, start, onChain, i), id, t)
    ensures In(ctx, Reached(ctx, start, onChain, j), id, t)
  {
    P.RunSplit(ctx, Pr.Chain(map[], start), onChain[..i], onChain[i..j]);
    assert onChain[..i] + onChain[i..j] == onChain[..j];
    P.AccountsOnlyMoveForward(ctx, Reached(ctx, start, onChain, i), onChain[i..j], ctx.pda.epoch(ctx.poolKey, id));
  }

  lemma OneFinalState(ctx: Pr.Context, start: Pr.Tokens, onChain: seq<P.Step>, id: Bytes32, t: Terminal, u: Terminal)
    requires P.Final(t) && P.Final(u) && Ever(ctx, start, onChain, id, t) && Ever(ctx, start, onChain, id, u)
    ensures t == u
  {
    var n := |onChain|;
    var i :| 0 <= i <= n && In(ctx, Reached(ctx, start, onChain, i), id, t);
    var j :| 0 <= j <= n && In(ctx, Reached(ctx, start, onChain, j), id, u);
    FinalStays(ctx, start, onChain, id, t, i, n);
    FinalStays(ctx, start, onChain, id, u, j, n);
  }

  /** No epoch is ever Settled and, at another time, Expired or Aborted. */
  lemma FatesDisjoint(ctx: Pr.Context, start: Pr.Tokens, onChain: seq<P.Step>)
    ensures SettledEver(ctx, start, onChain) !! FailedEver(ctx, start, onChain)
  {
    forall id | id in SettledEver(ctx, start, onChain) ensures id !in FailedEver(ctx, start, onChain) {
      if Ever(ctx, start, onChain, id, Expired) {
        OneFinalState(ctx, start, onChain, id, Settled, Expired);
      } else if Ever(ctx, start, onChain, id, Aborted) {
        OneFinalState(ctx, start, onChain, id, Settled, Aborted);
      }
    }
  }

  /** Whatever the chain and the journals do, with handles and stops interleaved in any way: if finalisation is
      called only for epochs the chain has Settled and release only with a capability read off an Expired or Aborted
      one, then no epoch ever has both a commit and a Released nonce. */
  lemma NoEpochBothWays(ctx: Pr.Context, start: Pr.Tokens, onChain: seq<P.Step>, dig: Digester, steps: seq<Step>,
                        n: Bytes32)
    requires ChainHonestRun(steps, SettledEver(ctx, start, onChain), FailedEver(ctx, start, onChain))
    requires IsReleased(Run(dig, EMPTY, steps).res, n)
    ensures Run(dig, EMPTY, steps).res[n].epoch !in Run(dig, EMPTY, steps).acc.applied
  {
    FatesDisjoint(ctx, start, onChain);
    NeverCommittedAndReleased(dig, steps, SettledEver(ctx, start, onChain), FailedEver(ctx, start, onChain), n);
  }
}
