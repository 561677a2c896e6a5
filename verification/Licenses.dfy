/** The license expression evaluator, at the level of tokens. */
module Licenses {
  const ALLOWED_LICENSES: set<string> := {
    "0BSD", "Apache-2.0", "BSD-1-Clause", "BSD-2-Clause", "BSD-3-Clause", "BSL-1.0", "CC0-1.0", "CDLA-Permissive-2.0",
    "ISC",
    "MIT", "MIT-0", "MPL-2.0", "MPL-2.0+", "Unicode-3.0", "Unlicense", "Zlib", "bzip2-1.0.6"}
  const ALLOWED_EXCEPTIONS: set<string> := {"LLVM-exception"}

  /** The policy: which licenses and exceptions are allowed. */
  datatype Policy = Policy(licenses: set<string>, exceptions: set<string>)

  const POLICY := Policy(ALLOWED_LICENSES, ALLOWED_EXCEPTIONS)

  predicate Keyword(s: string) { s == "(" || s == ")" || s == "AND" || s == "OR" || s == "WITH" }

  // ---- what each method computes: a verdict and the position it stops at ----

  function Is(ts: seq<string>, i: nat, token: string): bool { i < |ts| && ts[i] == token }

  function PPrimary(p: Policy, ts: seq<string>, i: nat): (r: (bool, nat))
    requires i <= |ts|
    ensures i <= r.1 <= |ts| && (i < |ts| ==> i < r.1)
    decreases |ts| - i, 0
  {
    if Is(ts, i, "(") then
      var (inner, j) := POr(p, ts, i + 1);
      if Is(ts, j, ")") then (inner, j + 1) else (false, j)
    else if i == |ts| then (false, i)
    else if !Is(ts, i + 1, "WITH") then (ts[i] in p.licenses, i + 1)
    else if i + 2 == |ts| then (false, i + 2)
    else (ts[i] in p.licenses && ts[i + 2] in p.exceptions, i + 3)
  }

  function AndRest(p: Policy, ts: seq<string>, i: nat, acc: bool): (r: (bool, nat))
    requires i <= |ts|
    ensures i <= r.1 <= |ts|
    decreases |ts| - i, 1
  {
    if Is(ts, i, "AND") then
      var (more, j) := PPrimary(p, ts, i + 1);
      AndRest(p, ts, j, acc && more)
    else (acc, i)
  }

  function PAnd(p: Policy, ts: seq<string>, i: nat): (r: (bool, nat))
    requires i <= |ts|
    ensures i <= r.1 <= |ts|
    decreases |ts| - i, 2
  {
    var (first, j) := PPrimary(p, ts, i);
    AndRest(p, ts, j, first)
  }

  function OrRest(p: Policy, ts: seq<string>, i: nat, acc: bool): (r: (bool, nat))
    requires i <= |ts|
    ensures i <= r.1 <= |ts|
    decreases |ts| - i, 3
  {
    if Is(ts, i, "OR") then
      var (more, j) := PAnd(p, ts, i + 1);
      OrRest(p, ts, j, acc || more)
    else (acc, i)
  }

  function POr(p: Policy, ts: seq<string>, i: nat): (r: (bool, nat))
    requires i <= |ts|
    ensures i <= r.1 <= |ts|
    decreases |ts| - i, 4
  {
    var (first, j) := PAnd(p, ts, i);
    OrRest(p, ts, j, first)
  }

  function ParseSpec(p: Policy, ts: seq<string>): bool {
    ts != [] && POr(p, ts, 0) == (true, |ts|)
  }

  // ---- the parser object ----

  class LicenseExpression {
    const policy: Policy
    const tokens: seq<string>
    var position: nat

    constructor (policy: Policy, tokens: seq<string>)
      ensures this.policy == policy && this.tokens == tokens && position == 0
    { this.policy, this.tokens, position := policy, tokens, 0; }

    method Parse() returns (r: bool)
      requires position == 0
      modifies this
      ensures r == ParseSpec(policy, tokens)
    {
      if |tokens| == 0 { return false; }
      r := ParseOr();
      if position != |tokens| { return false; }
    }

    method ParseOr() returns (r: bool)
      requires position <= |tokens|
      modifies this
      ensures (r, position) == POr(policy, tokens, old(position))
      decreases |tokens| - position, 4
    {
      r := ParseAnd();
      ghost var start := old(position);
      var more := Take("OR");
      while more
        invariant start <= position <= |tokens|
        invariant more
                  ==> position > start && Is(tokens, position - 1, "OR")
                      && POr(policy, tokens, start) == OrRest(policy, tokens, position - 1, r)
        invariant !more ==> POr(policy, tokens, start) == (r, position)
        decreases |tokens| - position, more
      {
        var alternative := ParseAnd();
        r := r || alternative;
        more := Take("OR");
      }
    }

    method ParseAnd() returns (r: bool)
      requires position <= |tokens|
      modifies this
      ensures (r, position) == PAnd(policy, tokens, old(position))
      decreases |tokens| - position, 2
    {
      r := ParsePrimary();
      ghost var start := old(position);
      var more := Take("AND");
      while more
        invariant start <= position <= |tokens|
        invariant more
                  ==> position > start && Is(tokens, position - 1, "AND")
                      && PAnd(policy, tokens, start) == AndRest(policy, tokens, position - 1, r)
        invariant !more ==> PAnd(policy, tokens, start) == (r, position)
        decreases |tokens| - position, more
      {
        var condition := ParsePrimary();
        r := r && condition;
        more := Take("AND");
      }
    }

    method ParsePrimary() returns (r: bool)
      requires position <= |tokens|
      modifies this
      ensures (r, position) == PPrimary(policy, tokens, old(position))
      decreases |tokens| - position, 0
    {
      var open := Take("(");
      if open {
        r := ParseOr();
        var closed := Take(")");
        return r && closed;
      }
      if position >= |tokens| { return false; }
      r := tokens[position] in policy.licenses;
      position := position + 1;
      var with := Take("WITH");
      if with {
        if position >= |tokens| { return false; }
        r := r && tokens[position] in policy.exceptions;
        position := position + 1;
      }
    }

    method Take(token: string) returns (taken: bool)
      requires position <= |tokens|
      modifies this
      ensures taken == Is(tokens, old(position), token)
      ensures position == old(position) + if taken then 1 else 0
    {
      taken := position < |tokens| && tokens[position] == token;
      if taken { position := position + 1; }
    }
  }

  // ---- expressions as trees: WITH binds tighter than AND, AND tighter than OR ----

  datatype Tree = License(id: string)
    | With(id: string, exception: string) | And(l: Tree, r: Tree) | Or(l: Tree, r: Tree) | Group(t: Tree)

  predicate WellFormed(t: Tree) {
    match t
    case License(id) => !Keyword(id)
    case With(id, exception) => !Keyword(id) && !Keyword(exception)
    case And(l, r) => WellFormed(l) && WellFormed(r)
    case Or(l, r) => WellFormed(l) && WellFormed(r)
    case Group(u) => WellFormed(u)
  }

  function Eval(p: Policy, t: Tree): bool {
    match t
    case License(id) => id in p.licenses
    case With(id, exception) => id in p.licenses && exception in p.exceptions
    case And(l, r) => Eval(p, l) && Eval(p, r)
    case Or(l, r) => Eval(p, l) || Eval(p, r)
    case Group(u) => Eval(p, u)
  }

  // Printing at the three levels of the grammar; a tree that does not fit its level is put in parentheses.

  function RankOr(t: Tree): nat { if t.Or? then 0 else if t.And? then 1 else 2 }
  function RankAnd(t: Tree): nat { if t.Or? then 2 else if t.And? then 0 else 1 }
  function RankPrimary(t: Tree): nat { if t.Or? then 1 else if t.And? then 2 else 0 }

  function PrintOr(t: Tree): (r: seq<string>)
    ensures r != []
    decreases t, RankOr(t)
  {
    if t.Or? then PrintOr(t.l) + ["OR"] + PrintAnd(t.r) else PrintAnd(t)
  }

  function PrintAnd(t: Tree): (r: seq<string>)
    ensures r != []
    decreases t, RankAnd(t)
  {
    if t.And? then PrintAnd(t.l) + ["AND"] + PrintPrimary(t.r) else PrintPrimary(t)
  }

  function PrintPrimary(t: Tree): (r: seq<string>)
    ensures r != []
    decreases t, RankPrimary(t)
  {
    match t
    case License(id) => [id]
    case With(id, exception) => [id, "WITH", exception]
    case Group(u) => ["("] + PrintOr(u) + [")"]
    case And(_, _) => ["("] + PrintOr(t) + [")"]
    case Or(_, _) => ["("] + PrintOr(t) + [")"]
  }

  // ---- reading back a printed tree, whatever follows it ----

  /** The next token does not continue what was just read. */
  predicate Stops(rest: seq<string>, token: string) { rest == [] || rest[0] != token }

  lemma Positions(pre: seq<string>, mid: seq<string>, rest: seq<string>, i: nat)
    requires i <= |rest|
    ensures var ts := pre + mid + rest;
            |ts| == |pre| + |mid| + |rest| && (i < |rest| ==> ts[|pre| + |mid| + i] == rest[i])
    ensures var ts := pre + mid + rest; forall k | 0 <= k < |mid| :: ts[|pre| + k] == mid[k]
  {
  }

  lemma Regroup(pre: seq<string>, a: seq<string>, op: string, b: seq<string>, rest: seq<string>)
    ensures pre + (a + [op] + b) + rest == pre + a + ([op] + b + rest)
    ensures pre + (a + [op] + b) + rest == (pre + a + [op]) + b + rest
    ensures (pre + (a + [op] + b) + rest)[|pre| + |a|] == op
  {
  }

  /** What follows a printed piece does not continue it. */
  lemma StopsHere(pre: seq<string>, mid: seq<string>, rest: seq<string>, token: string)
    requires Stops(rest, token)
    ensures !Is(pre + mid + rest, |pre| + |mid|, token)
  {
    Positions(pre, mid, rest, 0);
  }

  lemma {:induction false} PrimaryPrinted(p: Policy, t: Tree, pre: seq<string>, rest: seq<string>)
    requires WellFormed(t) && Stops(rest, "WITH")
    ensures PPrimary(p, pre + PrintPrimary(t) + rest, |pre|) == (Eval(p, t), |pre| + |PrintPrimary(t)|)
    decreases t, 2 * RankPrimary(t)
  {
    Positions(pre, PrintPrimary(t), rest, 0);
    match t {
      case License(_) =>
      case With(_, _) =>
      case Group(u) => GroupPrinted(p, u, pre, rest);
      case And(_, _) => GroupPrinted(p, t, pre, rest);
      case Or(_, _) => GroupPrinted(p, t, pre, rest);
    }
  }

  lemma {:induction false} GroupPrinted(p: Policy, u: Tree, pre: seq<string>, rest: seq<string>)
    requires WellFormed(u)
    ensures PPrimary(p, pre + (["("] + PrintOr(u) + [")"]) + rest, |pre|) == (Eval(p, u), |pre| + |PrintOr(u)| + 2)
    decreases u, 2 * RankOr(u) + 1
  {
    var mid := ["("] + PrintOr(u) + [")"];
    var ts := pre + mid + rest;
    Positions(pre, mid, rest, 0);
    OrPrinted(p, u, pre + ["("], [")"] + rest);
    assert ts == (pre + ["("]) + PrintOr(u) + ([")"] + rest);
    assert ts[|pre|] == mid[0] && ts[|pre| + 1 + |PrintOr(u)|] == mid[1 + |PrintOr(u)|];
  }

  lemma {:induction false} AndPrinted(p: Policy, t: Tree, pre: seq<string>, rest: seq<string>)
    requires WellFormed(t) && Stops(rest, "WITH")
    ensures PAnd(p, pre + PrintAnd(t) + rest, |pre|)
            == AndRest(p, pre + PrintAnd(t) + rest, |pre| + |PrintAnd(t)|, Eval(p, t))
    decreases t, 2 * RankAnd(t)
  {
    if t.And? {
      var a, b := PrintAnd(t.l), PrintPrimary(t.r);
      Regroup(pre, a, "AND", b, rest);
      AndPrinted(p, t.l, pre, ["AND"] + b + rest);
      PrimaryPrinted(p, t.r, pre + a + ["AND"], rest);
    } else {
      PrimaryPrinted(p, t, pre, rest);
    }
  }

  /** An alternative ends where no AND follows. */
  lemma {:induction false} AlternativePrinted(p: Policy, t: Tree, pre: seq<string>, rest: seq<string>)
    requires WellFormed(t) && Stops(rest, "WITH") && Stops(rest, "AND")
    ensures PAnd(p, pre + PrintAnd(t) + rest, |pre|) == (Eval(p, t), |pre| + |PrintAnd(t)|)
    decreases t, 2 * RankAnd(t) + 1
  {
    AndPrinted(p, t, pre, rest);
    StopsHere(pre, PrintAnd(t), rest, "AND");
  }

  lemma {:induction false} OrPrinted(p: Policy, t: Tree, pre: seq<string>, rest: seq<string>)
    requires WellFormed(t) && Stops(rest, "WITH") && Stops(rest, "AND")
    ensures POr(p, pre + PrintOr(t) + rest, |pre|)
            == OrRest(p, pre + PrintOr(t) + rest, |pre| + |PrintOr(t)|, Eval(p, t))
    decreases t, 2 * RankOr(t)
  {
    if t.Or? {
      var a, b := PrintOr(t.l), PrintAnd(t.r);
      Regroup(pre, a, "OR", b, rest);
      OrPrinted(p, t.l, pre, ["OR"] + b + rest);
      AlternativePrinted(p, t.r, pre + a + ["OR"], rest);
    } else {
      AlternativePrinted(p, t, pre, rest);
    }
  }

  /** For every well-formed expression, parsing its tokens consumes them all and returns its meaning. */
  lemma ParsePrinted(p: Policy, t: Tree)
    requires WellFormed(t)
    ensures POr(p, PrintOr(t), 0) == (Eval(p, t), |PrintOr(t)|)
    ensures ParseSpec(p, PrintOr(t)) == Eval(p, t)
  {
    OrPrinted(p, t, [], []);
    assert [] + PrintOr(t) + [] == PrintOr(t);
  }

  // ---- malformed lists ----

  function Last(s: seq<string>): string
    requires s != []
  {
    s[|s| - 1]
  }

  lemma LastOfPrimary(t: Tree)
    requires WellFormed(t)
    ensures Last(PrintPrimary(t)) != "OR"
  {
    match t {
      case License(id) => assert Last(PrintPrimary(t)) == id;
      case With(_, exception) => assert Last(PrintPrimary(t)) == exception;
      case Group(u) => EndsLike(["("] + PrintOr(u), [")"]);
      case And(_, _) => EndsLike(["("] + PrintOr(t), [")"]);
      case Or(_, _) => EndsLike(["("] + PrintOr(t), [")"]);
    }
  }

  lemma LastOfAnd(t: Tree)
    requires WellFormed(t)
    ensures Last(PrintAnd(t)) != "OR"
  {
    if t.And? {
      LastOfPrimary(t.r);
      EndsLike(PrintAnd(t.l) + ["AND"], PrintPrimary(t.r));
    } else {
      LastOfPrimary(t);
    }
  }

  /** The last token of a printed tree is never an OR. */
  lemma LastIsNotOr(t: Tree)
    requires WellFormed(t)
    ensures Last(PrintOr(t)) != "OR"
  {
    if t.Or? {
      LastOfAnd(t.r);
      EndsLike(PrintOr(t.l) + ["OR"], PrintAnd(t.r));
    } else {
      LastOfAnd(t);
    }
  }

  lemma EndsLike(a: seq<string>, b: seq<string>)
    requires b != []
    ensures Last(a + b) == Last(b)
  {
  }

  /** Not everything accepted is well formed: an allowed expression followed by a dangling OR is accepted, and no
      well-formed expression has those tokens. */
  lemma DanglingOrAccepted(p: Policy, t: Tree)
    requires WellFormed(t) && Eval(p, t)
    ensures ParseSpec(p, PrintOr(t) + ["OR"])
    ensures forall u | WellFormed(u) :: PrintOr(u) != PrintOr(t) + ["OR"]
  {
    var ts := PrintOr(t) + ["OR"];
    OrPrinted(p, t, [], ["OR"]);
    assert [] + PrintOr(t) + ["OR"] == ts;
    assert PAnd(p, ts, |ts|) == (false, |ts|);
    forall u | WellFormed(u) ensures PrintOr(u) != ts {
      LastIsNotOr(u);
      assert Last(ts) == "OR";
    }
  }

  /** A policy names no keyword. */
  ghost predicate Plain(p: Policy) {
    (forall s | s in p.licenses :: !Keyword(s)) && (forall s | s in p.exceptions :: !Keyword(s))
  }

  lemma PolicyIsPlain()
    ensures Plain(POLICY)
  {
  }

  ghost predicate Denotes(p: Policy, t: Tree, ts: seq<string>) { WellFormed(t) && PrintOr(t) == ts && Eval(p, t) }

  // ---- exactly which lists are expressions: one scan with a nesting depth ----

  datatype Expect = Operand | Exception | AfterId | AfterOperand

  /** Whether `ts` completes an expression, with `st` next and `depth` parentheses open. */
  predicate Scan(ts: seq<string>, st: Expect, depth: nat)
    decreases |ts|
  {
    if ts == [] then depth == 0 && (st.AfterId? || st.AfterOperand?)
    else if st.Operand? then
      if ts[0] == "(" then Scan(ts[1..], Operand, depth + 1) else !Keyword(ts[0]) && Scan(ts[1..], AfterId, depth)
    else if st.Exception? then !Keyword(ts[0]) && Scan(ts[1..], AfterOperand, depth)
    else if ts[0] == "AND" || ts[0] == "OR" then Scan(ts[1..], Operand, depth)
    else if ts[0] == ")" then depth > 0 && Scan(ts[1..], AfterOperand, depth - 1)
    else ts[0] == "WITH" && st.AfterId? && Scan(ts[1..], Exception, depth)
  }

  lemma IdDone(rest: seq<string>, depth: nat)
    requires Stops(rest, "WITH")
    ensures Scan(rest, AfterId, depth) == Scan(rest, AfterOperand, depth)
  {
  }

  lemma Shift(a: string, s: seq<string>, rest: seq<string>)
    ensures ([a] + s + rest)[0] == a && ([a] + s + rest)[1..] == s + rest
  {
  }

  lemma {:induction false} PrimaryScans(t: Tree, rest: seq<string>, depth: nat)
    requires WellFormed(t) && Stops(rest, "WITH")
    ensures Scan(PrintPrimary(t) + rest, Operand, depth) == Scan(rest, AfterOperand, depth)
    decreases t, 2 * RankPrimary(t)
  {
    match t {
      case License(id) => IdDone(rest, depth); assert ([id] + rest)[1..] == rest;
      case With(id, exception) =>
        var ts := PrintPrimary(t) + rest;
        assert ts[1..] == ["WITH", exception] + rest && ts[1..][1..] == [exception] + rest && ts[1..][1..][1..] == rest;
        assert Scan(ts, Operand, depth) == Scan(ts[1..], AfterId, depth);
        assert Scan(ts[1..], AfterId, depth) == Scan([exception] + rest, Exception, depth);
      case Group(u) => GroupScans(u, rest, depth);
      case And(_, _) => GroupScans(t, rest, depth);
      case Or(_, _) => GroupScans(t, rest, depth);
    }
  }

  lemma {:induction false} GroupScans(u: Tree, rest: seq<string>, depth: nat)
    requires WellFormed(u) && Stops(rest, "WITH")
    ensures Scan(["("] + PrintOr(u) + [")"] + rest, Operand, depth) == Scan(rest, AfterOperand, depth)
    decreases u, 2 * RankOr(u) + 1
  {
    assert ["("] + PrintOr(u) + [")"] + rest == ["("] + PrintOr(u) + ([")"] + rest);
    Shift("(", PrintOr(u), [")"] + rest);
    OrScans(u, [")"] + rest, depth + 1);
    assert ([")"] + rest)[1..] == rest;
  }

  lemma {:induction false} AndScans(t: Tree, rest: seq<string>, depth: nat)
    requires WellFormed(t) && Stops(rest, "WITH")
    ensures Scan(PrintAnd(t) + rest, Operand, depth) == Scan(rest, AfterOperand, depth)
    decreases t, 2 * RankAnd(t)
  {
    if t.And? {
      assert PrintAnd(t) + rest == PrintAnd(t.l) + (["AND"] + PrintPrimary(t.r) + rest);
      AndScans(t.l, ["AND"] + PrintPrimary(t.r) + rest, depth);
      Shift("AND", PrintPrimary(t.r), rest);
      PrimaryScans(t.r, rest, depth);
    } else {
      PrimaryScans(t, rest, depth);
    }
  }

  lemma {:induction false} OrScans(t: Tree, rest: seq<string>, depth: nat)
    requires WellFormed(t) && Stops(rest, "WITH")
    ensures Scan(PrintOr(t) + rest, Operand, depth) == Scan(rest, AfterOperand, depth)
    decreases t, 2 * RankOr(t)
  {
    if t.Or? {
      assert PrintOr(t) + rest == PrintOr(t.l) + (["OR"] + PrintAnd(t.r) + rest);
      OrScans(t.l, ["OR"] + PrintAnd(t.r) + rest, depth);
      Shift("OR", PrintAnd(t.r), rest);
      AndScans(t.r, rest, depth);
    } else {
      AndScans(t, rest, depth);
    }
  }

  /** What is left after a piece was read. */
  ghost predicate Remains(rest: seq<string>, depth: nat) { Scan(rest, AfterOperand, depth) && Stops(rest, "WITH") }

  lemma {:induction false} ReadPrimary(ts: seq<string>, depth: nat) returns (t: Tree, rest: seq<string>)
    requires Scan(ts, Operand, depth)
    ensures WellFormed(t) && !t.And? && !t.Or? && ts == PrintPrimary(t) + rest && |rest| < |ts| && Remains(rest, depth)
    decreases |ts|, 0
  {
    if ts[0] == "(" {
      var u, r := ReadOr(ts[1..], depth + 1);
      t, rest := Group(u), r[1..];
      assert ts == ["("] + (PrintOr(u) + ([")"] + rest));
    } else if Is(ts, 1, "WITH") {
      assert Scan(ts[1..], AfterId, depth) && ts[1..][1..] == ts[2..];
      assert Scan(ts[2..], Exception, depth) && ts[2..][1..] == ts[3..];
      t, rest := With(ts[0], ts[2]), ts[3..];
      assert ts == [ts[0], ts[1], ts[2]] + rest;
    } else {
      t, rest := License(ts[0]), ts[1..];
      IdDone(rest, depth);
      assert ts == [ts[0]] + rest;
    }
  }

  lemma {:induction false} ReadAnd(ts: seq<string>, depth: nat) returns (t: Tree, rest: seq<string>)
    requires Scan(ts, Operand, depth)
    ensures WellFormed(t) && !t.Or? && ts == PrintAnd(t) + rest && |rest| < |ts| && Remains(rest, depth)
            && Stops(rest, "AND")
    decreases |ts|, 1
  {
    t, rest := ReadPrimary(ts, depth);
    while Is(rest, 0, "AND")
      invariant WellFormed(t) && !t.Or? && ts == PrintAnd(t) + rest && |rest| < |ts| && Remains(rest, depth)
      decreases |rest|
    {
      var r, after := ReadPrimary(rest[1..], depth);
      Joined(ts, PrintAnd(t), rest, PrintPrimary(r), after);
      t, rest := And(t, r), after;
    }
  }

  lemma Joined(ts: seq<string>, a: seq<string>, rest: seq<string>, b: seq<string>, after: seq<string>)
    requires rest != [] && ts == a + rest && rest[1..] == b + after
    ensures ts == a + [rest[0]] + b + after
  {
    assert rest == [rest[0]] + rest[1..];
  }

  lemma {:induction false} ReadOr(ts: seq<string>, depth: nat) returns (t: Tree, rest: seq<string>)
    requires Scan(ts, Operand, depth)
    ensures WellFormed(t) && ts == PrintOr(t) + rest && |rest| < |ts| && Remains(rest, depth) && Stops(rest, "AND")
            && Stops(rest, "OR")
    decreases |ts|, 2
  {
    t, rest := ReadAnd(ts, depth);
    while Is(rest, 0, "OR")
      invariant WellFormed(t) && ts == PrintOr(t) + rest && |rest| < |ts| && Remains(rest, depth) && Stops(rest, "AND")
      decreases |rest|
    {
      var r, after := ReadAnd(rest[1..], depth);
      Joined(ts, PrintOr(t), rest, PrintAnd(r), after);
      t, rest := Or(t, r), after;
    }
  }

  /** The scan accepts exactly the tokens of well-formed expressions. */
  lemma ScanIff(ts: seq<string>)
    ensures Scan(ts, Operand, 0) <==> exists t :: WellFormed(t) && PrintOr(t) == ts
  {
    if Scan(ts, Operand, 0) {
      var t, rest := ReadOr(ts, 0);
      assert rest == [] && PrintOr(t) == ts;
    }
    if t :| WellFormed(t) && PrintOr(t) == ts {
      OrScans(t, [], 0);
      assert ts + [] == ts;
    }
  }

  // ---- how the parser reads any list ----

  /** A reading of a token list. Beside licenses, exceptions, groups and operators it has what the parser makes of
      malformed input: a keyword taken as a license or exception, a WITH cut off by the end, an operand missing at the
      end, and a group that is not closed. */
  datatype Reading =
    | Id(id: string)
    | IdWith(id: string, exception: string)
    | CutWith(id: string)
    | Missing
    | Closed(r: Reading)
    | Unclosed(r: Reading)
    | Both(left: Reading, right: Reading)
    | Either(left: Reading, right: Reading)

  /** The number of tokens read. */
  function Len(t: Reading): nat {
    match t
    case Id(_) => 1
    case IdWith(_, _) => 3
    case CutWith(_) => 2
    case Missing => 0
    case Closed(u) => Len(u) + 2
    case Unclosed(u) => Len(u) + 1
    case Both(l, r) => Len(l) + 1 + Len(r)
    case Either(l, r) => Len(l) + 1 + Len(r)
  }

  /** Reading `t` starts at token `i` as one operand: each kind with its condition on the tokens and on the next one. */
  predicate OperandAt(t: Reading, ts: seq<string>, i: nat)
    decreases t, 0
  {
    match t
    case Id(id) => Is(ts, i, id) && id != "(" && !Is(ts, i + 1, "WITH")
    case IdWith(id, exception) => Is(ts, i, id) && id != "(" && Is(ts, i + 1, "WITH") && Is(ts, i + 2, exception)
    case CutWith(id) => Is(ts, i, id) && id != "(" && Is(ts, i + 1, "WITH") && i + 2 == |ts|
    case Missing => i == |ts|
    case Closed(u) => Is(ts, i, "(") && OrChain(u, ts, i + 1) && !Is(ts, i + 1 + Len(u), "OR")
                      && Is(ts, i + 1 + Len(u), ")")
    case Unclosed(u) => Is(ts, i, "(") && OrChain(u, ts, i + 1) && !Is(ts, i + 1 + Len(u), "OR")
                        && !Is(ts, i + 1 + Len(u), ")")
    case _ => false
  }

  /** Operands joined by AND. */
  predicate AndChain(t: Reading, ts: seq<string>, i: nat)
    decreases t, 1
  {
    if t.Both?
    then AndChain(t.left, ts, i) && Is(ts, i + Len(t.left), "AND") && OperandAt(t.right, ts, i + Len(t.left) + 1)
    else OperandAt(t, ts, i)
  }

  /** Alternatives joined by OR, each of them a whole chain of ANDs. */
  predicate OrChain(t: Reading, ts: seq<string>, i: nat)
    decreases t, 2
  {
    if t.Either? then
      && OrChain(t.left, ts, i) && Is(ts, i + Len(t.left), "OR")
      && AndChain(t.right, ts, i + Len(t.left) + 1) && !Is(ts, i + Len(t), "AND")
    else AndChain(t, ts, i) && !Is(ts, i + Len(t), "AND")
  }

  predicate AndAt(t: Reading, ts: seq<string>, i: nat) { AndChain(t, ts, i) && !Is(ts, i + Len(t), "AND") }
  predicate OrAt(t: Reading, ts: seq<string>, i: nat) { OrChain(t, ts, i) && !Is(ts, i + Len(t), "OR") }

  /** `t` reads exactly the list `ts`. */
  predicate Reads(t: Reading, ts: seq<string>) { OrAt(t, ts, 0) && Len(t) == |ts| }

  /** The value of a reading: what is missing or cut off is false. */
  predicate Holds(p: Policy, t: Reading) {
    match t
    case Id(id) => id in p.licenses
    case IdWith(id, exception) => id in p.licenses && exception in p.exceptions
    case CutWith(_) => false
    case Missing => false
    case Closed(u) => Holds(p, u)
    case Unclosed(_) => false
    case Both(l, r) => Holds(p, l) && Holds(p, r)
    case Either(l, r) => Holds(p, l) || Holds(p, r)
  }

  /** The reading contains something malformed. */
  predicate Faulty(t: Reading) {
    match t
    case Id(id) => Keyword(id)
    case IdWith(id, exception) => Keyword(id) || Keyword(exception)
    case CutWith(_) => true
    case Missing => true
    case Closed(u) => Faulty(u)
    case Unclosed(_) => true
    case Both(l, r) => Faulty(l) || Faulty(r)
    case Either(l, r) => Faulty(l) || Faulty(r)
  }

  // A reading determines what the parser computes.

  lemma {:induction false} OperandParsed(p: Policy, t: Reading, ts: seq<string>, i: nat)
    requires i <= |ts| && OperandAt(t, ts, i)
    ensures i + Len(t) <= |ts| && PPrimary(p, ts, i) == (Holds(p, t), i + Len(t))
    decreases t, 0
  {
    if t.Closed? || t.Unclosed? { OrParsed(p, t.r, ts, i + 1); }
  }

  lemma AndStep(p: Policy, ts: seq<string>, i: nat, acc: bool)
    requires Is(ts, i, "AND")
    ensures AndRest(p, ts, i, acc) == AndRest(p, ts, PPrimary(p, ts, i + 1).1, acc && PPrimary(p, ts, i + 1).0)
  {
  }

  lemma {:induction false} AndParsed(p: Policy, t: Reading, ts: seq<string>, i: nat)
    requires i <= |ts| && AndChain(t, ts, i)
    ensures i + Len(t) <= |ts| && PAnd(p, ts, i) == AndRest(p, ts, i + Len(t), Holds(p, t))
    decreases t, 1
  {
    if t.Both? {
      AndParsed(p, t.left, ts, i);
      OperandParsed(p, t.right, ts, i + Len(t.left) + 1);
      AndStep(p, ts, i + Len(t.left), Holds(p, t.left));
    } else {
      OperandParsed(p, t, ts, i);
    }
  }

  lemma {:induction false} AlternativeParsed(p: Policy, t: Reading, ts: seq<string>, i: nat)
    requires i <= |ts| && AndAt(t, ts, i)
    ensures i + Len(t) <= |ts| && PAnd(p, ts, i) == (Holds(p, t), i + Len(t))
    decreases t, 2
  {
    AndParsed(p, t, ts, i);
  }

  lemma OrStep(p: Policy, ts: seq<string>, i: nat, acc: bool)
    requires Is(ts, i, "OR")
    ensures OrRest(p, ts, i, acc) == OrRest(p, ts, PAnd(p, ts, i + 1).1, acc || PAnd(p, ts, i + 1).0)
  {
  }

  lemma {:induction false} OrChainParsed(p: Policy, t: Reading, ts: seq<string>, i: nat)
    requires i <= |ts| && OrChain(t, ts, i)
    ensures i + Len(t) <= |ts| && POr(p, ts, i) == OrRest(p, ts, i + Len(t), Holds(p, t))
    decreases t, 3
  {
    if t.Either? {
      OrChainParsed(p, t.left, ts, i);
      AlternativeParsed(p, t.right, ts, i + Len(t.left) + 1);
      OrStep(p, ts, i + Len(t.left), Holds(p, t.left));
    } else {
      AlternativeParsed(p, t, ts, i);
    }
  }

  lemma {:induction false} OrParsed(p: Policy, t: Reading, ts: seq<string>, i: nat)
    requires i <= |ts| && OrAt(t, ts, i)
    ensures i + Len(t) <= |ts| && POr(p, ts, i) == (Holds(p, t), i + Len(t))
    decreases t, 4
  {
    OrChainParsed(p, t, ts, i);
  }

  // From every position there is a reading.

  lemma SomeLeaf(ts: seq<string>, i: nat) returns (t: Reading)
    requires i <= |ts| && !Is(ts, i, "(")
    ensures OperandAt(t, ts, i) && i + Len(t) <= |ts|
  {
    if i == |ts| {
      t := Missing;
    } else if !Is(ts, i + 1, "WITH") {
      t := Id(ts[i]);
    } else if i + 2 == |ts| {
      t := CutWith(ts[i]);
    } else {
      t := IdWith(ts[i], ts[i + 2]);
    }
  }

  lemma {:induction false} SomeOperand(ts: seq<string>, i: nat) returns (t: Reading)
    requires i <= |ts|
    ensures OperandAt(t, ts, i) && i + Len(t) <= |ts|
    decreases |ts| - i, 0
  {
    if Is(ts, i, "(") {
      var u := SomeOr(ts, i + 1);
      t := if Is(ts, i + 1 + Len(u), ")") then Closed(u) else Unclosed(u);
    } else {
      t := SomeLeaf(ts, i);
    }
  }

  lemma {:induction false} SomeAnd(ts: seq<string>, i: nat) returns (t: Reading)
    requires i <= |ts|
    ensures AndAt(t, ts, i) && i + Len(t) <= |ts| && !t.Either?
    decreases |ts| - i, 1
  {
    t := SomeOperand(ts, i);
    while Is(ts, i + Len(t), "AND")
      invariant AndChain(t, ts, i) && i + Len(t) <= |ts| && !t.Either?
      decreases |ts| - Len(t)
    {
      var r := SomeOperand(ts, i + Len(t) + 1);
      t := Both(t, r);
    }
  }

  lemma {:induction false} SomeOr(ts: seq<string>, i: nat) returns (t: Reading)
    requires i <= |ts|
    ensures OrAt(t, ts, i) && i + Len(t) <= |ts|
    decreases |ts| - i, 2
  {
    t := SomeAnd(ts, i);
    while Is(ts, i + Len(t), "OR")
      invariant OrChain(t, ts, i) && i + Len(t) <= |ts|
      decreases |ts| - Len(t)
    {
      var r := SomeAnd(ts, i + Len(t) + 1);
      t := Either(t, r);
    }
  }

  /** On every token list: the parser accepts it if and only if it has a reading that holds. */
  lemma AcceptedIff(p: Policy, ts: seq<string>)
    ensures ParseSpec(p, ts) <==> exists t :: Reads(t, ts) && Holds(p, t)
  {
    var t := SomeOr(ts, 0);
    OrParsed(p, t, ts, 0);
    if u :| Reads(u, ts) && Holds(p, u) { OrParsed(p, u, ts, 0); }
  }

  // A reading is faulty exactly when the scan fails on it.

  lemma {:induction false} OperandScanned(t: Reading, ts: seq<string>, i: nat, depth: nat)
    requires i <= |ts| && OperandAt(t, ts, i)
    ensures i + Len(t) <= |ts|
            && Scan(ts[i..], Operand, depth) == (!Faulty(t) && Scan(ts[i + Len(t)..], AfterOperand, depth))
    decreases t, 0
  {
    match t {
      case Id(_) => FirstOf(ts, i); IdDone(ts[i + 1..], depth);
      case IdWith(_, _) => WithScanned(ts, i, depth);
      case CutWith(_) => WithScanned(ts, i, depth);
      case Missing =>
      case Closed(u) => GroupScanned(u, ts, i, depth);
      case Unclosed(u) => GroupScanned(u, ts, i, depth);
    }
  }

  lemma FirstOf(ts: seq<string>, i: nat)
    requires i < |ts|
    ensures ts[i..][0] == ts[i] && ts[i..][1..] == ts[i + 1..]
  {
  }

  lemma WithScanned(ts: seq<string>, i: nat, depth: nat)
    requires Is(ts, i + 1, "WITH") && ts[i] != "("
    ensures Scan(ts[i..], Operand, depth) ==
            (!Keyword(ts[i]) && i + 2 < |ts| && !Keyword(ts[i + 2]) && Scan(ts[i + 3..], AfterOperand, depth))
  {
    FirstOf(ts, i);
    FirstOf(ts, i + 1);
    assert Scan(ts[i + 1..], AfterId, depth) == Scan(ts[i + 2..], Exception, depth);
    if i + 2 < |ts| { FirstOf(ts, i + 2); }
  }

  lemma {:induction false} GroupScanned(u: Reading, ts: seq<string>, i: nat, depth: nat)
    requires Is(ts, i, "(") && OrAt(u, ts, i + 1)
    ensures var j := i + 1 + Len(u);
            && j <= |ts|
            && Scan(ts[i..], Operand, depth) == (!Faulty(u) && Is(ts, j, ")") && Scan(ts[j + 1..], AfterOperand, depth))
    decreases u, 4
  {
    var j := i + 1 + Len(u);
    FirstOf(ts, i);
    OrScanned(u, ts, i + 1, depth + 1);
    GroupEnds(ts, j, depth);
  }

  /** Behind a whole expression only a closing parenthesis goes on. */
  lemma GroupEnds(ts: seq<string>, j: nat, depth: nat)
    requires j <= |ts| && !Is(ts, j, "AND") && !Is(ts, j, "OR")
    ensures Scan(ts[j..], AfterOperand, depth + 1) == (Is(ts, j, ")") && Scan(ts[j + 1..], AfterOperand, depth))
  {
    if j < |ts| { FirstOf(ts, j); }
  }

  /** Behind AND and OR the scan expects the next operand. */
  lemma JoinScanned(ts: seq<string>, i: nat, depth: nat)
    requires Is(ts, i, "AND") || Is(ts, i, "OR")
    ensures Scan(ts[i..], AfterOperand, depth) == Scan(ts[i + 1..], Operand, depth)
  {
    FirstOf(ts, i);
  }

  lemma {:induction false} AndScanned(t: Reading, ts: seq<string>, i: nat, depth: nat)
    requires i <= |ts| && AndChain(t, ts, i)
    ensures i + Len(t) <= |ts|
            && Scan(ts[i..], Operand, depth) == (!Faulty(t) && Scan(ts[i + Len(t)..], AfterOperand, depth))
    decreases t, 1
  {
    if t.Both? {
      AndScanned(t.left, ts, i, depth);
      JoinScanned(ts, i + Len(t.left), depth);
      OperandScanned(t.right, ts, i + Len(t.left) + 1, depth);
    } else {
      OperandScanned(t, ts, i, depth);
    }
  }

  lemma {:induction false} OrChainScanned(t: Reading, ts: seq<string>, i: nat, depth: nat)
    requires i <= |ts| && OrChain(t, ts, i)
    ensures i + Len(t) <= |ts|
            && Scan(ts[i..], Operand, depth) == (!Faulty(t) && Scan(ts[i + Len(t)..], AfterOperand, depth))
    decreases t, 2
  {
    if t.Either? {
      OrChainScanned(t.left, ts, i, depth);
      JoinScanned(ts, i + Len(t.left), depth);
      AndScanned(t.right, ts, i + Len(t.left) + 1, depth);
    } else {
      AndScanned(t, ts, i, depth);
    }
  }

  lemma {:induction false} OrScanned(t: Reading, ts: seq<string>, i: nat, depth: nat)
    requires i <= |ts| && OrAt(t, ts, i)
    ensures i + Len(t) <= |ts|
            && Scan(ts[i..], Operand, depth) == (!Faulty(t) && Scan(ts[i + Len(t)..], AfterOperand, depth))
    ensures !Is(ts, i + Len(t), "AND") && !Is(ts, i + Len(t), "OR")
    decreases t, 3
  {
    OrChainScanned(t, ts, i, depth);
    ChainStops(t, ts, i);
  }

  lemma ChainStops(t: Reading, ts: seq<string>, i: nat)
    requires OrChain(t, ts, i)
    ensures !Is(ts, i + Len(t), "AND")
  {
  }

  /** A reading is free of faults exactly when its list is a well-formed expression. */
  lemma FaultlessIff(t: Reading, ts: seq<string>)
    requires Reads(t, ts)
    ensures !Faulty(t) <==> exists u :: WellFormed(u) && PrintOr(u) == ts
  {
    OrScanned(t, ts, 0, 0);
    assert ts[0..] == ts && ts[|ts|..] == [];
    ScanIff(ts);
  }

  /** The verdict of the parser is wrong exactly on the lists with a faulty reading that holds; it then accepts what is
      not an allowed expression. It never refuses one that is. */
  lemma VerdictIff(p: Policy, ts: seq<string>)
    ensures (ParseSpec(p, ts) <==> exists u :: Denotes(p, u, ts))
            <==> !(exists t :: Reads(t, ts) && Holds(p, t) && Faulty(t))
    ensures (exists u :: Denotes(p, u, ts)) ==> ParseSpec(p, ts)
  {
    AcceptedIff(p, ts);
    if u :| Denotes(p, u, ts) { ParsePrinted(p, u); }
    forall t | Reads(t, ts) ensures !Faulty(t) <==> exists u :: WellFormed(u) && PrintOr(u) == ts {
      FaultlessIff(t, ts);
    }
    if ParseSpec(p, ts) {
      if u :| WellFormed(u) && PrintOr(u) == ts {
        ParsePrinted(p, u);
        assert Denotes(p, u, ts);
      }
    }
  }

  // ---- without OR nothing malformed can hide ----

  predicate Conjunctive(t: Reading) {
    match t
    case Closed(u) => Conjunctive(u)
    case Unclosed(u) => Conjunctive(u)
    case Both(l, r) => Conjunctive(l) && Conjunctive(r)
    case Either(_, _) => false
    case _ => true
  }

  lemma {:induction false} OperandConjunctive(t: Reading, ts: seq<string>, i: nat)
    requires "OR" !in ts && OperandAt(t, ts, i)
    ensures Conjunctive(t)
    decreases t, 0
  {
    if t.Closed? || t.Unclosed? { OrConjunctive(t.r, ts, i + 1); }
  }

  lemma {:induction false} AndConjunctive(t: Reading, ts: seq<string>, i: nat)
    requires "OR" !in ts && AndChain(t, ts, i)
    ensures Conjunctive(t)
    decreases t, 1
  {
    if t.Both? {
      AndConjunctive(t.left, ts, i);
      OperandConjunctive(t.right, ts, i + Len(t.left) + 1);
    } else {
      OperandConjunctive(t, ts, i);
    }
  }

  lemma {:induction false} OrConjunctive(t: Reading, ts: seq<string>, i: nat)
    requires "OR" !in ts && OrAt(t, ts, i)
    ensures Conjunctive(t)
    decreases t, 2
  {
    if !t.Either? { AndConjunctive(t, ts, i); }
  }

  lemma {:induction false} TrueConjunction(p: Policy, t: Reading)
    requires Plain(p) && Conjunctive(t) && Holds(p, t)
    ensures !Faulty(t)
  {
    match t {
      case Closed(u) => TrueConjunction(p, u);
      case Both(l, r) => TrueConjunction(p, l); TrueConjunction(p, r);
      case _ =>
    }
  }

  /** On lists without the token OR the verdict is exact: true exactly for the tokens of a well-formed, allowed
      expression. */
  lemma ExactWithoutOr(p: Policy, ts: seq<string>)
    requires Plain(p) && "OR" !in ts
    ensures ParseSpec(p, ts) <==> exists t :: Denotes(p, t, ts)
  {
    VerdictIff(p, ts);
    forall t | Reads(t, ts) && Holds(p, t) ensures !Faulty(t) {
      OrConjunctive(t, ts, 0);
      TrueConjunction(p, t);
    }
  }

  /** In particular under the policy the script enforces. */
  lemma PolicyExactWithoutOr(ts: seq<string>)
    requires "OR" !in ts
    ensures ParseSpec(POLICY, ts) <==> exists t :: Denotes(POLICY, t, ts)
  {
    PolicyIsPlain();
    ExactWithoutOr(POLICY, ts);
  }
}
