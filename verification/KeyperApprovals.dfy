/** What every approved lock is over: a package in order for an open epoch read off the chain. */
module KeyperApprovals {
  import opened Bytes
  import opened Wire
  import opened ChainState
  import opened Program
  import P = ProgramRuns
  import opened HostChain
  import opened Submission
  import opened LockPackage
  import opened Keyper
  import opened LockOutcomes
  import opened KeyperRuns
  import opened KeyperSafety

  /** The terms in a capability are those of the account it was read from, and of the pool. */
  ghost predicate OpenRead(env: Env, w: World, o: ConfirmedOpen) {
    && o.epochAccount in w.chain.epochs
    && var e := w.chain.epochs[o.epochAccount];
       && o.configuration == HostConfiguration(e, env.ctx.pool) && o.policy.operatorKey == env.ctx.pool.operator
       && o.policy.epochId == e.epochId && o.policy.minimum == e.minimum && o.policy.base == e.baseLot
          && o.policy.quote == e.quotePerLot
  }

  /** The payload is the one of a package in order for an open epoch that was read. */
  ghost predicate Checked(env: Env, w: World, payload: LockPayload, p: Package, open: ConfirmedOpen) {
    && open in w.opens && InOrder(env.crypto, p, open)
    && payload
      == LockPayload(p.epochAccount, ConfigDigest(env.crypto.sha, p.configuration), p.preBalanceRoot, p.memberRoot,
                              p.memberCount, p.configuration.lockDeadline, p.lockNonce)
  }

  ghost predicate HandleChecked(env: Env, w: World, h: nat) {
    Hd(w, h).Recorded? ==> Checked(env, w, Hd(w, h).payload, Hd(w, h).package, Hd(w, h).open)
  }

  ghost predicate ApprovalInv(env: Env, w: World) {
    && (forall o | o in w.opens :: OpenRead(env, w, o))
    && (forall h: nat :: HandleChecked(env, w, h))
    && (forall a | a in w.approvals :: Checked(env, w, a.payload, a.package, a.open))
  }

  lemma OpensGrow(env: Env, w: World, step: Step)
    ensures w.opens <= Exec(env, w, step).opens
    ensures !step.FetchOpen? ==> Exec(env, w, step).opens == w.opens
  {
  }

  lemma FetchedOpen(env: Env, w: World, step: Step, o: ConfirmedOpen)
    requires step.FetchOpen? && o in Exec(env, w, step).opens && o !in w.opens
    ensures OpenRead(env, w, o)
  {
    ConfirmedOpenReads(env.host, step.key, w.chain.epochs[step.key], env.ctx.pool, step.clock, step.slot);
  }

  lemma OpenReadStays(env: Env, w: World, step: Step, o: ConfirmedOpen)
    requires OpenRead(env, w, o)
    ensures OpenRead(env, Exec(env, w, step), o)
  {
    var key := o.epochAccount;
    if step.OnChain? {
      P.StepMoves(env.ctx, w.chain, step.step, key);
      P.MovesLater(env.ctx, key, w.chain.epochs[key], Exec(env, w, step).chain.epochs[key]);
    } else {
      ChainStays(env, w, step);
    }
  }

  lemma JournalChecks(env: Env, w: World, step: Step)
    requires step.Journal? && Exec(env, w, step) != w
    ensures HandleChecked(env, Exec(env, w, step), step.h)
  {
    var x := Hd(w, step.h);
    var key := KeyOf(env.ctx.pool.keypers, x.k).value;
    ApproveIff(env.crypto, x.k, key, step.package, step.open, step.secretFits);
    ApprovedPayload(env.crypto, x.k, key, step.package, step.open, step.secretFits);
  }

  /** Only journaling brings a handle to where it may sign. */
  lemma RecordedStays(env: Env, w: World, step: Step, h: nat)
    requires !step.Journal? && Hd(Exec(env, w, step), h).Recorded?
    ensures Hd(Exec(env, w, step), h) == Hd(w, h)
  {
    if Actor(step) != Some(h) { OthersStay(env, w, step, h); }
  }

  lemma HandleStep(env: Env, w: World, step: Step, h: nat)
    requires ApprovalInv(env, w)
    ensures HandleChecked(env, Exec(env, w, step), h)
  {
    assert HandleChecked(env, w, h);
    OpensGrow(env, w, step);
    if step.Journal? {
      if h != step.h { OthersStay(env, w, step, h); }
      else if Exec(env, w, step) != w { JournalChecks(env, w, step); }
    } else if Hd(Exec(env, w, step), h).Recorded? {
      RecordedStays(env, w, step, h);
    }
  }

  lemma ApprovalStep(env: Env, w: World, step: Step, a: LockApproval)
    requires ApprovalInv(env, w) && a in Exec(env, w, step).approvals
    ensures Checked(env, Exec(env, w, step), a.payload, a.package, a.open)
  {
    OpensGrow(env, w, step);
    if a !in w.approvals { SignedRecorded(env, w, step, a); }
  }

  lemma SignedRecorded(env: Env, w: World, step: Step, a: LockApproval)
    requires ApprovalInv(env, w) && a in Exec(env, w, step).approvals && a !in w.approvals
    ensures Checked(env, w, a.payload, a.package, a.open)
  {
    if step.Sign? { assert HandleChecked(env, w, step.h); }
  }

  lemma OpenStep(env: Env, w: World, step: Step, o: ConfirmedOpen)
    requires ApprovalInv(env, w) && o in Exec(env, w, step).opens
    ensures OpenRead(env, Exec(env, w, step), o)
  {
    OpensGrow(env, w, step);
    if o !in w.opens { FetchedOpen(env, w, step, o); }
    OpenReadStays(env, w, step, o);
  }

  lemma {:induction false} RunApprovalInv(env: Env, w: World, steps: seq<Step>)
    requires ApprovalInv(env, w)
    ensures ApprovalInv(env, Run(env, w, steps))
    decreases |steps|
  {
    if steps != [] {
      var t := Exec(env, w, steps[0]);
      forall o | o in t.opens ensures OpenRead(env, t, o) { OpenStep(env, w, steps[0], o); }
      forall h: nat ensures HandleChecked(env, t, h) { HandleStep(env, w, steps[0], h); }
      forall a | a in t.approvals ensures Checked(env, t, a.payload, a.package, a.open) {
        ApprovalStep(env, w, steps[0], a);
      }
      RunApprovalInv(env, t, steps[1..]);
    }
  }

  lemma CheckedIsBacked(env: Env, w: World, payload: LockPayload, p: Package, open: ConfirmedOpen)
    requires Checked(env, w, payload, p, open) && OpenRead(env, w, open)
    ensures p.epochAccount in w.chain.epochs
            && p.configuration == HostConfiguration(w.chain.epochs[p.epochAccount], env.ctx.pool)
    ensures OperatorBacked(env.crypto, p, env.ctx.pool.operator)
  {
  }

  /** Every lock ever approved is over a package in order for the epoch's own terms: at least four members granted
      by the pool's operator and signed by their traders, no two alike, over balances the pool's operator signed; and
      the payload commits to exactly that package's roots, count and nonce. */
  lemma ApprovedLockSafety(env: Env, tokens: Tokens, steps: seq<Step>, a: LockApproval)
    requires a in Run(env, Start(tokens), steps).approvals
    ensures var w, p := Run(env, Start(tokens), steps), a.package;
            && p.epochAccount in w.chain.epochs
               && p.configuration == HostConfiguration(w.chain.epochs[p.epochAccount], env.ctx.pool)
            && OperatorBacked(env.crypto, p, env.ctx.pool.operator)
            && a.payload == LockPayload(p.epochAccount, ConfigDigest(env.crypto.sha, p.configuration), p.preBalanceRoot,
                                        p.memberRoot, p.memberCount, p.configuration.lockDeadline, p.lockNonce)
  {
    RunApprovalInv(env, Start(tokens), steps);
    var w := Run(env, Start(tokens), steps);
    assert Checked(env, w, a.payload, a.package, a.open) && OpenRead(env, w, a.open);
    CheckedIsBacked(env, w, a.payload, a.package, a.open);
  }
}
