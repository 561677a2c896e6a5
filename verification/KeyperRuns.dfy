/** Every run of the keypers and the chain, with stops, restarts and a lost journal file: which digests get signed and
    which shares get released. */
module KeyperRuns {
  import opened Bytes
  import opened Order
  import opened Wire
  import opened ChainState
  import opened Quorum
  import opened Program
  import P = ProgramRuns
  import opened HostChain
  import opened Submission
  import opened Admission
  import opened LockPackage
  import opened Keyper

  /** What does not change during a run. */
  datatype Env = Env(crypto: Crypto, host: Host, ctx: Context)

  /** A process of keyper `k`: `Opening` holds the file lock between its two writes, `Recorded` has journaled a digest
      and not yet signed it. */
  datatype Handle =
    | Closed
    | Opening(k: nat)
    | Ready(k: nat, known: Digests)
    | Recorded(k: nat, known: Digests, payload: LockPayload, package: Package, open: ConfirmedOpen)

  /** The files, the handle holding their lock, and everything that was ever written to the journal. */
  datatype Store = Store(files: Files, holder: Option<nat>, history: Digests)

  /** A signed lock: by whom, the payload, and the package and open epoch it was checked against. */
  datatype LockApproval = Signed(k: nat, payload: LockPayload, package: Package, open: ConfirmedOpen)
  /** A released share: who asked for which member of which package, and the ciphertext the share is for. */
  datatype Released = Released(k: nat, package: Package, confirmed: ConfirmedLock, member: nat, ciphertext: seq<byte>)

  /** `opens` and `locks` are the capabilities read off the chain so far. */
  datatype World = World(chain: Chain, stores: map<nat, Store>, handles: map<nat, Handle>,
                         approvals: set<LockApproval>, opens: set<ConfirmedOpen>, locks: set<ConfirmedLock>,
                         released: set<Released>)

  datatype Step =
    | OnChain(step: P.Step)
    | FetchOpen(key: Bytes32, clock: Clock, slot: u64)
    | Fetch(key: Bytes32, clock: Clock, slot: u64)
    | BeginOpen(h: nat, k: nat)
    | FinishOpen(h: nat)
    | Journal(h: nat, package: Package, open: ConfirmedOpen, secretFits: bool)
    | Sign(h: nat)
    | Release(h: nat, package: Package, confirmed: ConfirmedLock, secretFits: bool, member: nat)
    | Crash(h: nat)
    | LoseJournal(k: nat)

  const FRESH := Store(Files(false, None), None, map[])

  function At(w: World, k: nat): Store { if k in w.stores then w.stores[k] else FRESH }
  function Hd(w: World, h: nat): Handle { if h in w.handles then w.handles[h] else Closed }
  function SetStore(w: World, k: nat, s: Store): World { w.(stores := w.stores[k := s]) }
  function SetHandle(w: World, h: nat, x: Handle): World { w.(handles := w.handles[h := x]) }

  // ---- one step; a step that is not enabled leaves the world as it is ----

  function ExecFetchOpen(env: Env, w: World, key: Bytes32, clock: Clock, slot: u64): World {
    if key !in w.chain.epochs then w
    else
      var e := w.chain.epochs[key];
      var c := ConfirmOpen(env.host, key, RpcAccount(env.host.programId, EpochBytes(e)), e.pool,
                           RpcAccount(env.host.programId, PoolBytes(env.ctx.pool)), env.host.sysvarId, clock, slot);
      if c.Some? then w.(opens := w.opens + {c.value}) else w
  }

  function ExecFetch(env: Env, w: World, key: Bytes32, clock: Clock, slot: u64): World {
    if key !in w.chain.epochs then w
    else
      var c := ConfirmLock(env.host, key, RpcAccount(env.host.programId, EpochBytes(w.chain.epochs[key])),
                           RpcAccount(env.host.programId, PoolBytes(env.ctx.pool)), env.host.sysvarId, clock, slot);
      if c.Some? then w.(locks := w.locks + {c.value}) else w
  }

  function ExecBeginOpen(w: World, h: nat, k: nat): World {
    var s := At(w, k);
    if !Hd(w, h).Closed? || s.holder.Some? then w
    else if !s.files.marker && s.files.journal.None? then
      SetHandle(SetStore(w, k, s.(files := s.files.(marker := true), holder := Some(h))), h, Opening(k))
    else if s.files.marker && s.files.journal.Some? then SetHandle(w, h, Ready(k, s.files.journal.value))
    else w
  }

  function ExecFinishOpen(w: World, h: nat): World {
    var x := Hd(w, h);
    if !x.Opening? then w
    else
      var s := At(w, x.k);
      SetHandle(SetStore(w, x.k, Store(s.files.(journal := Some(map[])), None, map[])), h, Ready(x.k, map[]))
  }

  ghost function ExecJournal(env: Env, w: World, h: nat, p: Package, open: ConfirmedOpen, secretFits: bool): World {
    var x := Hd(w, h);
    if !x.Ready? || open !in w.opens || At(w, x.k).holder.Some? then w
    else
      var s := At(w, x.k);
      var key := KeyOf(env.ctx.pool.keypers, x.k);
      var approved := if key.None? then Err(WrongKeyper)
        else ApproveSpec(env.crypto, x.k, key.value, p, open, secretFits);
      if approved.Err? then w
      else
        var m := RecordSpec(s.files, p.epochAccount, LockDigest(env.crypto.sha, approved.value));
        if m.Err? then w
        else SetHandle(SetStore(w, x.k, Store(s.files.(journal := Some(m.value)), None, m.value)), h,
          Recorded(x.k, m.value, approved.value, p, open))
  }

  function ExecSign(w: World, h: nat): World {
    var x := Hd(w, h);
    if !x.Recorded? then w
    else SetHandle(w, h,
      Ready(x.k, x.known)).(approvals := w.approvals + {LockApproval.Signed(x.k, x.payload, x.package, x.open)})
  }

  ghost function ExecRelease(env: Env, w: World, h: nat, p: Package, confirmed: ConfirmedLock, secretFits: bool,
                             member: nat): World {
    var x := Hd(w, h);
    if !x.Ready? || confirmed !in w.locks then w
    else
      var key := KeyOf(env.ctx.pool.keypers, x.k);
      if key.None? then w
      else
        match Keyper.ReleaseSpec(env.crypto, x.k, key.value, x.known, p, confirmed, secretFits, member)
        case Err(_) => w
        case Ok(ciphertext) => w.(released := w.released + {Released(x.k, p, confirmed, member, ciphertext)})
  }

  function ExecCrash(w: World, h: nat): World {
    var x := Hd(w, h);
    var dropped := SetHandle(w, h, Closed);
    if x.Opening? && At(w, x.k).holder == Some(h) then SetStore(dropped, x.k, At(w, x.k).(holder := None)) else dropped
  }

  ghost function Exec(env: Env, w: World, step: Step): World {
    match step
    case OnChain(s) => w.(chain := P.Exec(env.ctx, w.chain, s))
    case FetchOpen(key, clock, slot) => ExecFetchOpen(env, w, key, clock, slot)
    case Fetch(key, clock, slot) => ExecFetch(env, w, key, clock, slot)
    case BeginOpen(h, k) => ExecBeginOpen(w, h, k)
    case FinishOpen(h) => ExecFinishOpen(w, h)
    case Journal(h, p, open, secretFits) => ExecJournal(env, w, h, p, open, secretFits)
    case Sign(h) => ExecSign(w, h)
    case Release(h, p, confirmed, secretFits, member) => ExecRelease(env, w, h, p, confirmed, secretFits, member)
    case Crash(h) => ExecCrash(w, h)
    case LoseJournal(k) => SetStore(w, k, At(w, k).(files := At(w, k).files.(journal := None)))
  }

  ghost function Run(env: Env, w: World, steps: seq<Step>): World
    decreases |steps|
  {
    if steps == [] then w else Run(env, Exec(env, w, steps[0]), steps[1..])
  }

  function Start(tokens: Tokens): World { World(Chain(map[], tokens), map[], map[], {}, {}, {}, {}) }

  // ---- the journal never changes and never forgets ----

  ghost predicate Within(a: Digests, b: Digests) { forall e | e in a :: e in b && b[e] == a[e] }

  /** A journal file holds everything ever written to it; a path without marker has never been written. */
  ghost predicate StoreInv(s: Store) {
    && (s.files.journal.Some? ==> s.files.journal.value == s.history && s.files.marker)
    && (!s.files.marker ==> s.history == map[])
  }

  /** What a process believes was written, was. */
  ghost predicate HandleInv(env: Env, w: World, h: nat) {
    match Hd(w, h)
    case Closed => true
    case Opening(k) => At(w, k).holder == Some(h) && At(w, k).files.journal.None? && At(w, k).history == map[]
                       && At(w, k).files.marker
    case Ready(k, known) => Within(known, At(w, k).history)
    case Recorded(k, known, payload, _, _) => Within(known, At(w, k).history) && Wrote(env, w, k, payload)
  }

  ghost predicate Wrote(env: Env, w: World, k: nat, payload: LockPayload) {
    payload.epochAccount in At(w, k).history
      && At(w, k).history[payload.epochAccount] == LockDigest(env.crypto.sha, payload)
  }

  ghost predicate Inv(env: Env, w: World) {
    && (forall k: nat :: StoreInv(At(w, k)))
    && (forall h: nat :: HandleInv(env, w, h))
    && (forall a | a in w.approvals :: Wrote(env, w, a.k, a.payload))
  }

  /** The journal-changing step in full. */
  lemma JournalParts(env: Env, w: World, h: nat, p: Package, open: ConfirmedOpen, secretFits: bool)
    requires Inv(env, w) && ExecJournal(env, w, h, p, open, secretFits) != w
    ensures var x := Hd(w, h);
            && x.Ready? && At(w, x.k).holder.None?
            && var t := ExecJournal(env, w, h, p, open, secretFits);
               && Hd(t, h).Recorded? && Hd(t, h).k == x.k && Hd(t, h).payload == PayloadOf(env.crypto, p)
               && Hd(t, h).known == At(t, x.k).history
               && t == SetHandle(SetStore(w, x.k, At(t, x.k)), h, Hd(t, h))
               && At(t, x.k).holder.None? && StoreInv(At(t, x.k)) && Within(At(w, x.k).history, At(t, x.k).history)
               && Wrote(env, t, x.k, PayloadOf(env.crypto, p))
  {
    var x := Hd(w, h);
    assert StoreInv(At(w, x.k));
    RecordKeeps(At(w, x.k).files, p.epochAccount, LockDigest(env.crypto.sha, PayloadOf(env.crypto, p)));
  }

  /** Steps that touch no journal file. */
  predicate Filesless(step: Step) {
    step.OnChain? || step.FetchOpen? || step.Fetch? || step.Sign? || step.Release?
  }

  lemma FilesStay(env: Env, w: World, step: Step)
    requires Filesless(step)
    ensures Exec(env, w, step).stores == w.stores
  {
  }

  /** Opening, stopping and losing a file keep the invariant of a path and its history. */
  lemma QuietStore(env: Env, w: World, step: Step, k: nat)
    requires Inv(env, w) && !step.Journal?
    ensures StoreInv(At(Exec(env, w, step), k)) && At(Exec(env, w, step), k).history == At(w, k).history
  {
    assert StoreInv(At(w, k));
    if Filesless(step) { FilesStay(env, w, step); }
    if step.FinishOpen? { assert HandleInv(env, w, step.h); }
  }

  /** A path's files keep their invariant and its history only grows. */
  lemma StoreStep(env: Env, w: World, step: Step, k: nat)
    requires Inv(env, w)
    ensures StoreInv(At(Exec(env, w, step), k)) && Within(At(w, k).history, At(Exec(env, w, step), k).history)
  {
    if step.Journal? {
      assert StoreInv(At(w, k));
      if Exec(env, w, step) != w { JournalParts(env, w, step.h, step.package, step.open, step.secretFits); }
    } else {
      QuietStore(env, w, step, k);
    }
  }

  /** The handle a step acts through. */
  function Actor(step: Step): Option<nat> {
    match step
    case OnChain(_) => None
    case FetchOpen(_, _, _) => None
    case Fetch(_, _, _) => None
    case LoseJournal(_) => None
    case BeginOpen(h, _) => Some(h)
    case FinishOpen(h) => Some(h)
    case Journal(h, _, _, _) => Some(h)
    case Sign(h) => Some(h)
    case Release(h, _, _, _, _) => Some(h)
    case Crash(h) => Some(h)
  }

  lemma OthersStay(env: Env, w: World, step: Step, g: nat)
    requires Actor(step) != Some(g)
    ensures Hd(Exec(env, w, step), g) == Hd(w, g)
  {
  }

  /** Nobody touches the files of a handle that is between its two writes, except to lose what is not there yet. */
  lemma OpeningProtected(env: Env, w: World, step: Step, g: nat)
    requires Inv(env, w) && Hd(w, g).Opening? && Actor(step) != Some(g)
    ensures At(Exec(env, w, step), Hd(w, g).k) == At(w, Hd(w, g).k)
  {
    assert HandleInv(env, w, g);
    var h := Actor(step);
    if h.Some? { assert HandleInv(env, w, h.value); }
    if step.Journal? && Exec(env, w, step) != w {
      JournalParts(env, w, step.h, step.package, step.open, step.secretFits);
    }
  }

  lemma WroteStays(env: Env, w: World, t: World, k: nat, payload: LockPayload)
    requires Wrote(env, w, k, payload) && Within(At(w, k).history, At(t, k).history)
    ensures Wrote(env, t, k, payload)
  {
  }

  lemma OtherHandle(env: Env, w: World, step: Step, g: nat)
    requires Inv(env, w) && Actor(step) != Some(g)
    ensures HandleInv(env, Exec(env, w, step), g)
  {
    var t, x := Exec(env, w, step), Hd(w, g);
    OthersStay(env, w, step, g);
    assert HandleInv(env, w, g);
    if x.Opening? { OpeningProtected(env, w, step, g); }
    if x.Ready? || x.Recorded? { StoreStep(env, w, step, x.k); }
    if x.Recorded? { WroteStays(env, w, t, x.k, x.payload); }
  }

  lemma OwnHandle(env: Env, w: World, step: Step, g: nat)
    requires Inv(env, w) && Actor(step) == Some(g)
    ensures HandleInv(env, Exec(env, w, step), g)
  {
    assert HandleInv(env, w, g);
    if step.BeginOpen? { assert StoreInv(At(w, step.k)); }
    if step.Journal? && Exec(env, w, step) != w {
      JournalParts(env, w, step.h, step.package, step.open, step.secretFits);
    }
  }

  lemma NewApproval(env: Env, w: World, step: Step, a: LockApproval)
    requires Inv(env, w) && a in Exec(env, w, step).approvals && a !in w.approvals
    ensures step.Sign? && Wrote(env, w, a.k, a.payload)
  {
    if step.Sign? { assert HandleInv(env, w, step.h); }
  }

  lemma StepInv(env: Env, w: World, step: Step)
    requires Inv(env, w)
    ensures Inv(env, Exec(env, w, step))
  {
    var t := Exec(env, w, step);
    forall k: nat ensures StoreInv(At(t, k)) { StoreStep(env, w, step, k); }
    forall g: nat ensures HandleInv(env, t, g) {
      if Actor(step) == Some(g) { OwnHandle(env, w, step, g); } else { OtherHandle(env, w, step, g); }
    }
    forall a | a in t.approvals ensures Wrote(env, t, a.k, a.payload) {
      if a !in w.approvals { NewApproval(env, w, step, a); }
      StoreStep(env, w, step, a.k);
      WroteStays(env, w, t, a.k, a.payload);
    }
  }

  lemma {:induction false} RunInv(env: Env, w: World, steps: seq<Step>)
    requires Inv(env, w)
    ensures Inv(env, Run(env, w, steps))
    decreases |steps|
  {
    if steps != [] {
      StepInv(env, w, steps[0]);
      RunInv(env, Exec(env, w, steps[0]), steps[1..]);
    }
  }

  /** Over every run, what a journal has held it holds for ever: as long as the file exists it is all that was ever
      written, and nothing written is changed. */
  lemma {:induction false} JournalNeverForgets(env: Env, w: World, steps: seq<Step>, k: nat)
    requires Inv(env, w)
    ensures Within(At(w, k).history, At(Run(env, w, steps), k).history)
    ensures var s := At(Run(env, w, steps), k); s.files.journal.Some? ==> s.files.journal.value == s.history
    decreases |steps|
  {
    if steps == [] {
      assert StoreInv(At(w, k));
    } else {
      StoreStep(env, w, steps[0], k);
      StepInv(env, w, steps[0]);
      JournalNeverForgets(env, Exec(env, w, steps[0]), steps[1..], k);
    }
  }
}
