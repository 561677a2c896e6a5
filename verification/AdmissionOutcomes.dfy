/** Who is admitted, said of the list itself. */
module AdmissionOutcomes {
  import opened Bytes
  import opened Order
  import opened Submission
  import opened Admission

  /** Submission `i` becomes a member: valid, unlike every member before it, its nonce not wasted before. */
  ghost predicate Takes(ok: Check, subs: seq<EncryptedSubmission>, i: nat)
    requires i < |subs|
    decreases i, 0
  {
    && ok(subs[i]) && (forall j | 0 <= j < i && Takes(ok, subs, j) :: Apart(subs[j], subs[i]))
    && (forall j | 0 <= j < i && Wastes(ok, subs, j) :: subs[j].auth.nonce != subs[i].auth.nonce)
  }

  /** Submission `i` is refused for the receipt of a member alone, after its nonce was recorded. */
  ghost predicate Wastes(ok: Check, subs: seq<EncryptedSubmission>, i: nat)
    requires i < |subs|
    decreases i, 1
  {
    && ok(subs[i])
    && (forall j | 0 <= j < i && Takes(ok, subs, j) ::
          subs[j].auth.participant != subs[i].auth.participant && subs[j].auth.nonce != subs[i].auth.nonce)
    && (forall j | 0 <= j < i && Wastes(ok, subs, j) :: subs[j].auth.nonce != subs[i].auth.nonce)
    && (exists j | 0 <= j < i && Takes(ok, subs, j) :: subs[j].receipt == subs[i].receipt)
  }

  // ---- what has been recorded before submission n ----

  ghost predicate Named(ok: Check, subs: seq<EncryptedSubmission>, n: nat, p: Bytes32)
    requires n <= |subs|
  {
    exists i | 0 <= i < n :: Takes(ok, subs, i) && subs[i].auth.participant == p
  }

  ghost predicate Noted(ok: Check, subs: seq<EncryptedSubmission>, n: nat, x: Bytes32)
    requires n <= |subs|
  {
    exists i | 0 <= i < n :: (Takes(ok, subs, i) || Wastes(ok, subs, i)) && subs[i].auth.nonce == x
  }

  ghost predicate Receipted(ok: Check, subs: seq<EncryptedSubmission>, n: nat, x: Bytes32)
    requires n <= |subs|
  {
    exists i | 0 <= i < n :: Takes(ok, subs, i) && subs[i].receipt == x
  }

  lemma TakesIff(ok: Check, subs: seq<EncryptedSubmission>, n: nat)
    requires n < |subs|
    ensures var s := subs[n];
            Takes(ok, subs, n) <==> && ok(s) && !Named(ok, subs, n, s.auth.participant)
                                    && !Noted(ok, subs, n, s.auth.nonce) && !Receipted(ok, subs, n, s.receipt)
  {
  }

  lemma WastesIff(ok: Check, subs: seq<EncryptedSubmission>, n: nat)
    requires n < |subs|
    ensures var s := subs[n];
            Wastes(ok, subs, n) <==> && ok(s) && !Named(ok, subs, n, s.auth.participant)
                                     && !Noted(ok, subs, n, s.auth.nonce) && Receipted(ok, subs, n, s.receipt)
  {
  }

  lemma NamedNext(ok: Check, subs: seq<EncryptedSubmission>, n: nat, p: Bytes32)
    requires n < |subs|
    ensures Named(ok, subs, n + 1, p)
            <==> Named(ok, subs, n, p) || (Takes(ok, subs, n) && subs[n].auth.participant == p)
  {
  }

  lemma NotedNext(ok: Check, subs: seq<EncryptedSubmission>, n: nat, x: Bytes32)
    requires n < |subs|
    ensures Noted(ok, subs, n + 1, x)
            <==> Noted(ok, subs, n, x)
                 || ((Takes(ok, subs, n) || Wastes(ok, subs, n)) && subs[n].auth.nonce == x)
  {
  }

  lemma ReceiptedNext(ok: Check, subs: seq<EncryptedSubmission>, n: nat, x: Bytes32)
    requires n < |subs|
    ensures Receipted(ok, subs, n + 1, x)
            <==> Receipted(ok, subs, n, x) || (Takes(ok, subs, n) && subs[n].receipt == x)
  {
  }

  // ---- the fold ----

  /** What the three collections hold after `n` submissions. */
  ghost predicate Holds(ok: Check, subs: seq<EncryptedSubmission>, n: nat, st: State)
    requires n <= |subs|
  {
    && (forall p :: p in st.valid <==> Named(ok, subs, n, p))
    && (forall x :: x in st.nonces <==> Noted(ok, subs, n, x))
    && (forall x :: x in st.receipts <==> Receipted(ok, subs, n, x))
  }

  /** The next submission joins the members, or wastes its nonce, or leaves no trace. */
  lemma TurnIs(ok: Check, subs: seq<EncryptedSubmission>, n: nat, st: State)
    requires n < |subs| && Holds(ok, subs, n, st)
    ensures Turn(ok, st, subs[n]) ==
            if Takes(ok, subs, n) then State(st.valid[subs[n].auth.participant := subs[n]],
                                             st.nonces + {subs[n].auth.nonce}, st.receipts + {subs[n].receipt})
            else if Wastes(ok, subs, n) then st.(nonces := st.nonces + {subs[n].auth.nonce}) else st
    ensures Takes(ok, subs, n) ==> subs[n].auth.participant !in st.valid
  {
    TakesIff(ok, subs, n);
    WastesIff(ok, subs, n);
  }

  lemma TurnHolds(ok: Check, subs: seq<EncryptedSubmission>, n: nat, st: State)
    requires n < |subs| && Holds(ok, subs, n, st)
    ensures Holds(ok, subs, n + 1, Turn(ok, st, subs[n]))
  {
    var t := Turn(ok, st, subs[n]);
    TurnIs(ok, subs, n, st);
    forall p ensures p in t.valid <==> Named(ok, subs, n + 1, p) { NamedNext(ok, subs, n, p); }
    forall x ensures x in t.nonces <==> Noted(ok, subs, n + 1, x) { NotedNext(ok, subs, n, x); }
    forall x ensures x in t.receipts <==> Receipted(ok, subs, n + 1, x) { ReceiptedNext(ok, subs, n, x); }
  }

  /** The numbers of the submissions that became members. */
  ghost function Taken(ok: Check, subs: seq<EncryptedSubmission>, n: nat): set<nat>
    requires n <= |subs|
  {
    set i: nat | i < n && Takes(ok, subs, i)
  }

  lemma TakenNext(ok: Check, subs: seq<EncryptedSubmission>, n: nat)
    requires n < |subs|
    ensures |Taken(ok, subs, n + 1)| == |Taken(ok, subs, n)| + if Takes(ok, subs, n) then 1 else 0
  {
    assert Taken(ok, subs, n + 1) == Taken(ok, subs, n) + if Takes(ok, subs, n) then {n} else {};
  }

  lemma OneMoreMember(m: map<Bytes32, EncryptedSubmission>, s: EncryptedSubmission)
    requires s.auth.participant !in m
    ensures |m[s.auth.participant := s]| == |m| + 1
  {
    var p := s.auth.participant;
    assert m[p := s].Keys == m.Keys + {p};
    assert |m[p := s]| == |m[p := s].Keys| && |m| == |m.Keys|;
  }

  ghost predicate Filed(st: State, s: EncryptedSubmission) {
    s.auth.participant in st.valid && st.valid[s.auth.participant] == s
  }

  /** Members are filed under their participant, and there are as many as were taken. */
  ghost predicate Files(ok: Check, subs: seq<EncryptedSubmission>, n: nat, st: State)
    requires n <= |subs|
  {
    && (forall i | 0 <= i < n && Takes(ok, subs, i) :: Filed(st, subs[i]))
    && |st.valid| == |Taken(ok, subs, n)|
  }

  lemma FiledStays(ok: Check, st: State, s: EncryptedSubmission, x: EncryptedSubmission)
    requires Filed(st, x)
    ensures Filed(Turn(ok, st, s), x)
  {
    TurnKeeps(ok, st, s);
  }

  lemma TurnCounts(ok: Check, subs: seq<EncryptedSubmission>, n: nat, st: State)
    requires n < |subs| && Holds(ok, subs, n, st) && |st.valid| == |Taken(ok, subs, n)|
    ensures |Turn(ok, st, subs[n]).valid| == |Taken(ok, subs, n + 1)|
    ensures Takes(ok, subs, n) ==> Filed(Turn(ok, st, subs[n]), subs[n])
  {
    TurnIs(ok, subs, n, st);
    TakenNext(ok, subs, n);
    if Takes(ok, subs, n) { OneMoreMember(st.valid, subs[n]); }
  }

  lemma TurnFiles(ok: Check, subs: seq<EncryptedSubmission>, n: nat, st: State)
    requires n < |subs| && Holds(ok, subs, n, st) && Files(ok, subs, n, st)
    ensures Files(ok, subs, n + 1, Turn(ok, st, subs[n]))
  {
    TurnCounts(ok, subs, n, st);
    forall i | 0 <= i < n + 1 && Takes(ok, subs, i) ensures Filed(Turn(ok, st, subs[n]), subs[i]) {
      if i < n { FiledStays(ok, st, subs[n], subs[i]); }
    }
  }

  lemma {:induction false} FoldIs(ok: Check, subs: seq<EncryptedSubmission>, n: nat)
    requires n <= |subs|
    ensures Holds(ok, subs, n, Fold(ok, subs[..n])) && Files(ok, subs, n, Fold(ok, subs[..n]))
  {
    if n > 0 {
      FoldIs(ok, subs, n - 1);
      assert subs[..n][..n - 1] == subs[..n - 1];
      TurnHolds(ok, subs, n - 1, Fold(ok, subs[..n - 1]));
      TurnFiles(ok, subs, n - 1, Fold(ok, subs[..n - 1]));
    }
  }

  // ---- admission ----

  /** A batch is admitted if and only if enough submissions are taken. */
  lemma AdmitIff(ok: Check, minimum: nat, subs: seq<EncryptedSubmission>)
    ensures AdmitSpec(ok, minimum, subs).Ok? <==> |Taken(ok, subs, |subs|)| >= minimum
    ensures AdmitSpec(ok, minimum, subs).Err?
            ==> AdmitSpec(ok, minimum, subs).error == InsufficientCrowd(|Taken(ok, subs, |subs|)|, minimum)
  {
    FoldIs(ok, subs, |subs|);
    assert subs[..|subs|] == subs;
  }

  lemma FiledIsMember(ok: Check, subs: seq<EncryptedSubmission>, s: EncryptedSubmission)
    requires var valid := Fold(ok, subs).valid; s.auth.participant in valid && valid[s.auth.participant] == s
    ensures s in Members(Fold(ok, subs).valid)
  {
    var valid := Fold(ok, subs).valid;
    EntryKeys(valid);
    var k :| 0 <= k < |SortedKeys(valid.Keys)| && SortedKeys(valid.Keys)[k] == s.auth.participant;
    MemberAt(ok, subs, k);
  }

  lemma MemberIsFiled(ok: Check, subs: seq<EncryptedSubmission>, s: EncryptedSubmission)
    requires s in Members(Fold(ok, subs).valid)
    ensures var valid := Fold(ok, subs).valid; s.auth.participant in valid && valid[s.auth.participant] == s
  {
    var valid := Fold(ok, subs).valid;
    var k :| 0 <= k < |Members(valid)| && Members(valid)[k] == s;
    EntryKeys(valid);
    MemberAt(ok, subs, k);
  }

  lemma FiledWasTaken(ok: Check, subs: seq<EncryptedSubmission>, st: State, p: Bytes32)
    requires Holds(ok, subs, |subs|, st) && Files(ok, subs, |subs|, st) && p in st.valid
    ensures exists i | 0 <= i < |subs| :: Takes(ok, subs, i) && subs[i] == st.valid[p]
  {
    assert Named(ok, subs, |subs|, p);
  }

  /** And its members are exactly the submissions taken. */
  lemma MemberIff(ok: Check, minimum: nat, subs: seq<EncryptedSubmission>, s: EncryptedSubmission)
    requires AdmitSpec(ok, minimum, subs).Ok?
    ensures s in AdmitSpec(ok, minimum, subs).value
            <==> exists i | 0 <= i < |subs| :: Takes(ok, subs, i) && subs[i] == s
  {
    FoldIs(ok, subs, |subs|);
    assert subs[..|subs|] == subs;
    if s in Members(Fold(ok, subs).valid) {
      MemberIsFiled(ok, subs, s);
      FiledWasTaken(ok, subs, Fold(ok, subs), s.auth.participant);
    }
    if i :| 0 <= i < |subs| && Takes(ok, subs, i) && subs[i] == s { FiledIsMember(ok, subs, s); }
  }
}
