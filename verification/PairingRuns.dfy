/**
 Pairing credentials over whole runs: any sequence of operations, each with its own clock reading. A
 credential is followed from the operation that minted it.
 */
module PairingRuns {
  import opened Prelude
  import opened Auth
  import opened Pairings

  function Replay(ops: seq<Op>): seq<Pairing> {
    if ops == [] then [] else Apply(Replay(ops[..|ops| - 1]), ops[|ops| - 1])
  }

  // ---- the cap ----------------------------------------------------------------------------

  lemma {:induction false} CountShrinks(ps: seq<Pairing>, now: nat, test: Test, removed: Test)
    ensures Count(Live(ps, now), test) <= Count(ps, test)
    ensures Count(Without(ps, removed), test) <= Count(ps, test)
  {
    if ps != [] {
      CountShrinks(ps[1..], now, test, removed);
      CountAppend(if ps[0].expiry > now then [ps[0]] else [], Live(ps[1..], now), test);
    }
  }

  /** Trimming keeps as many of the issuer's as fit beside a new one, and everyone else's. */
  lemma {:induction false} CountTrimmed(ps: seq<Pairing>, issuerHash: Bytes, other: Bytes)
    ensures Count(Trimmed(ps, issuerHash), ByIssuer(other)) ==
            if other == issuerHash then Min(Count(ps, ByIssuer(other)), MAX_PAIRINGS_PER_SESSION - 1) else Count(ps, ByIssuer(other))
  {
    if ps != [] {
      CountTrimmed(ps[1..], issuerHash, other);
      var first := if ps[0].issuerHash == issuerHash && Count(ps[1..], ByIssuer(issuerHash)) >= MAX_PAIRINGS_PER_SESSION - 1 then [] else [ps[0]];
      CountAppend(first, Trimmed(ps[1..], issuerHash), ByIssuer(other));
    }
  }

  /** No session ever has more than five pairings pending. */
  lemma {:induction false} AtMostFivePending(ops: seq<Op>, issuerHash: Bytes)
    ensures Count(Replay(ops), ByIssuer(issuerHash)) <= 5
  {
    if ops != [] {
      var before, last := ops[..|ops| - 1], ops[|ops| - 1];
      var ps := Replay(before);
      AtMostFivePending(before, issuerHash);
      CountAppend(Remaining(ps, last), Added(last), ByIssuer(issuerHash));
      if Touches(last) {
        CountShrinks(ps, last.now, ByIssuer(issuerHash), ByIssuer(issuerHash));
        match last {
          case Mint(_, _, issuer, _, now) =>
            CountTrimmed(Live(ps, now), issuer.value, issuerHash);
          case Consume(tokenHash, origin, now) =>
            CountShrinks(Live(ps, now), now, ByIssuer(issuerHash), ByToken(tokenHash, origin));
          case Revoke(id, issuer, now) =>
            CountShrinks(Live(ps, now), now, ByIssuer(issuerHash), ById(id, issuer.value));
        }
      }
    }
  }

  // ---- every operation is one in-order pass -----------------------------------------------

  /**
   Whether `op` leaves an entry alone, given the entries minted after it: the entry has not expired, it is
   not the one spent or revoked, and its session is not minting a fifth live pairing after it.
   */
  predicate Spares(p: Pairing, newer: seq<Pairing>, op: Op) {
    !Touches(op) ||
    (&& op.now < p.expiry
     && match op
        case Mint(_, _, issuer, _, now) =>
          p.issuerHash == issuer.value ==> Count(Live(newer, now), ByIssuer(issuer.value)) < MAX_PAIRINGS_PER_SESSION - 1
        case Consume(tokenHash, origin, _) => !Matches(p, ByToken(tokenHash, origin))
        case Revoke(id, issuer, _) => !Matches(p, ById(id, issuer.value)))
  }

  /** The entries spared, in their order. */
  function Spared(ps: seq<Pairing>, op: Op): seq<Pairing> {
    if ps == [] then [] else (if Spares(ps[0], ps[1..], op) then [ps[0]] else []) + Spared(ps[1..], op)
  }

  predicate Clash(p: Pairing, q: Pairing) {
    p.id == q.id || p.tokenHash == q.tokenHash
  }

  predicate Distinct(ps: seq<Pairing>) {
    forall i, j :: 0 <= i < j < |ps| ==> !Clash(ps[i], ps[j])
  }

  lemma DistinctTail(ps: seq<Pairing>)
    requires ps != [] && Distinct(ps)
    ensures Distinct(ps[1..]) && forall q :: q in ps[1..] ==> !Clash(ps[0], q)
  {
    forall i, j | 0 <= i < j < |ps[1..]|
      ensures !Clash(ps[1..][i], ps[1..][j])
    {
      assert ps[1..][i] == ps[i + 1] && ps[1..][j] == ps[j + 1];
    }
    forall q | q in ps[1..]
      ensures !Clash(ps[0], q)
    {
      var k :| 0 <= k < |ps[1..]| && ps[1..][k] == q;
      assert ps[k + 1] == q;
    }
  }

  lemma {:induction false} TrimIsPass(ps: seq<Pairing>, op: Op)
    requires Mints(op)
    ensures Trimmed(Live(ps, op.now), op.issuer.value) == Spared(ps, op)
  {
    if ps != [] {
      var rest := Live(ps[1..], op.now);
      TrimIsPass(ps[1..], op);
      if ps[0].expiry > op.now {
        assert ([ps[0]] + rest)[1..] == rest;
      } else {
        assert [] + rest == rest;
        assert [] + Spared(ps[1..], op) == Spared(ps[1..], op);
      }
    }
  }

  function Removes(op: Op): Test
    requires Touches(op) && !op.Mint?
  {
    match op
    case Consume(tokenHash, origin, _) => ByToken(tokenHash, origin)
    case Revoke(id, issuer, _) => ById(id, issuer.value)
  }

  lemma {:induction false} NothingToRemove(ps: seq<Pairing>, op: Op)
    requires Touches(op) && !op.Mint? && forall p :: p in ps ==> !Matches(p, Removes(op))
    ensures Spared(ps, op) == Live(ps, op.now)
  {
    if ps != [] {
      assert ps[0] in ps;
      NothingToRemove(ps[1..], op);
    }
  }

  lemma SparedStep(ps: seq<Pairing>, op: Op)
    requires ps != []
    ensures Spared(ps, op) == (if Spares(ps[0], ps[1..], op) then [ps[0]] + Spared(ps[1..], op) else Spared(ps[1..], op))
  {
    hide Spares;
    assert [] + Spared(ps[1..], op) == Spared(ps[1..], op);
  }

  lemma RemovalStep(ps: seq<Pairing>, now: nat, test: Test)
    requires ps != []
    ensures Without(Live(ps, now), test) ==
      if ps[0].expiry <= now then Without(Live(ps[1..], now), test)
      else if Matches(ps[0], test) then Live(ps[1..], now)
      else [ps[0]] + Without(Live(ps[1..], now), test)
  {
    var rest := Live(ps[1..], now);
    assert [] + rest == rest && ([ps[0]] + rest)[1..] == rest;
  }

  lemma {:induction false} RemovalIsPass(ps: seq<Pairing>, op: Op)
    requires Touches(op) && !op.Mint? && Distinct(ps)
    ensures Without(Live(ps, op.now), Removes(op)) == Spared(ps, op)
  {
    if ps != [] {
      DistinctTail(ps);
      SparedStep(ps, op);
      RemovalStep(ps, op.now, Removes(op));
      hide Distinct, Live, Without, Spared;
      if ps[0].expiry > op.now && Matches(ps[0], Removes(op)) {
        NothingToRemove(ps[1..], op);
      } else {
        RemovalIsPass(ps[1..], op);
      }
    }
  }

  lemma {:induction false} IdlePass(ps: seq<Pairing>, op: Op)
    requires !Touches(op)
    ensures Spared(ps, op) == ps
  {
    if ps != [] {
      IdlePass(ps[1..], op);
    }
  }

  /**
   Expiry, the eviction loop and removal by position come to one pass that decides each entry on its own
   and never reorders: whoever is not expired, spent, revoked or beyond the cap stays where it was.
   */
  lemma OperationIsOnePass(ps: seq<Pairing>, op: Op)
    requires Distinct(ps)
    ensures Remaining(ps, op) == Spared(ps, op)
  {
    if !Touches(op) {
      IdlePass(ps, op);
    } else if op.Mint? {
      TrimIsPass(ps, op);
    } else {
      RemovalIsPass(ps, op);
    }
  }

  // ---- one credential's fate ----------------------------------------------------------------

  /** The entries after `p`; entries are appended when minted and keep their order, so these were minted later. */
  function Newer(ps: seq<Pairing>, p: Pairing): seq<Pairing> {
    if ps == [] then [] else if ps[0] == p then ps[1..] else Newer(ps[1..], p)
  }

  lemma {:induction false} SparedMembers(ps: seq<Pairing>, op: Op, p: Pairing)
    requires Distinct(ps)
    ensures p in Spared(ps, op) <==> p in ps && Spares(p, Newer(ps, p), op)
    ensures p in Spared(ps, op) ==> Newer(Spared(ps, op), p) == Spared(Newer(ps, p), op)
  {
    if ps != [] {
      DistinctTail(ps);
      hide Spares;
      var first, rest := if Spares(ps[0], ps[1..], op) then [ps[0]] else [], Spared(ps[1..], op);
      SparedMembers(ps[1..], op, p);
      SparedMembers(ps[1..], op, ps[0]);
      assert ps == [ps[0]] + ps[1..];
      if first == [] {
        assert [] + rest == rest;
      } else {
        assert ([ps[0]] + rest)[1..] == rest;
      }
    }
  }

  /** Minted identifiers and token hashes are all different, as fresh random draws are. */
  ghost predicate FreshDraws(ops: seq<Op>) {
    forall a, b :: 0 <= a < b < |ops| && Mints(ops[a]) && Mints(ops[b]) ==> !Clash(PairingOf(ops[a]), PairingOf(ops[b]))
  }

  lemma {:induction false} FreshPrefix(ops: seq<Op>, n: nat)
    requires FreshDraws(ops) && n <= |ops|
    ensures FreshDraws(ops[..n])
  {
    var front := ops[..n];
    forall a, b | 0 <= a < b < |front| && Mints(front[a]) && Mints(front[b])
      ensures !Clash(PairingOf(front[a]), PairingOf(front[b]))
    {
      assert front[a] == ops[a] && front[b] == ops[b];
    }
  }

  /** Every entry of the table comes from some mint of the run, and no two clash. */
  lemma {:induction false} TableFromMints(ops: seq<Op>)
    requires FreshDraws(ops)
    ensures Distinct(Replay(ops))
    ensures forall p :: p in Replay(ops) ==> exists m :: 0 <= m < |ops| && Mints(ops[m]) && p == PairingOf(ops[m])
  {
    if ops != [] {
      var n := |ops| - 1;
      var before, last := ops[..n], ops[n];
      FreshPrefix(ops, n);
      TableFromMints(before);
      OperationIsOnePass(Replay(before), last);
      SparedDistinct(Replay(before), last);
      var rest := Spared(Replay(before), last);
      hide Spared, Remaining;
      forall p | p in rest
        ensures exists m :: 0 <= m < n && Mints(ops[m]) && p == PairingOf(ops[m])
      {
        SparedMembers(Replay(before), last, p);
        var m :| 0 <= m < n && Mints(before[m]) && p == PairingOf(before[m]);
        assert before[m] == ops[m];
      }
      if Mints(last) {
        forall i | 0 <= i < |rest|
          ensures !Clash(rest[i], PairingOf(last))
        {
          assert rest[i] in rest;
        }
      } else {
        assert rest + [] == rest;
      }
    }
  }

  lemma {:induction false} SparedDistinct(ps: seq<Pairing>, op: Op)
    requires Distinct(ps)
    ensures Distinct(Spared(ps, op))
  {
    if ps != [] {
      DistinctTail(ps);
      SparedDistinct(ps[1..], op);
      hide Spares;
      var rest := Spared(ps[1..], op);
      forall i | 0 <= i < |rest|
        ensures !Clash(ps[0], rest[i])
      {
        assert rest[i] in rest;
        SparedMembers(ps[1..], op, rest[i]);
      }
    }
  }

  /** Operation `k` spared the pairing minted by operation `m`. */
  predicate SparedAt(ops: seq<Op>, m: int, k: int)
    requires 0 <= m < |ops| && Mints(ops[m]) && 0 <= k < |ops|
  {
    Spares(PairingOf(ops[m]), Newer(Replay(ops[..k]), PairingOf(ops[m])), ops[k])
  }

  /** The pairing minted by operation `m` was spared by every operation since. */
  ghost predicate Pending(ops: seq<Op>, m: int) {
    0 <= m < |ops| && Mints(ops[m]) && forall k :: m < k < |ops| ==> SparedAt(ops, m, k)
  }

  lemma PendingStep(before: seq<Op>, op: Op, m: int)
    requires 0 <= m < |before|
    ensures var ops := before + [op];
      Pending(ops, m) <==> Pending(before, m) && SparedAt(ops, m, |before|)
  {
    hide Spares, Newer, Replay;
    var ops := before + [op];
    assert ops[m] == before[m];
    if Mints(before[m]) {
      forall k | m < k < |before|
        ensures SparedAt(ops, m, k) == SparedAt(before, m, k)
      {
        assert ops[..k] == before[..k] && ops[k] == before[k];
      }
    }
  }

  lemma NotYetMinted(before: seq<Op>, op: Op)
    requires FreshDraws(before + [op]) && Mints(op)
    ensures PairingOf(op) !in Replay(before)
  {
    var ops := before + [op];
    assert ops[..|before|] == before;
    FreshPrefix(ops, |before|);
    TableFromMints(before);
    hide Replay;
    assert ops[|before|] == op;
    forall m | 0 <= m < |before| && Mints(before[m])
      ensures PairingOf(op) != PairingOf(before[m])
    {
      assert ops[m] == before[m];
    }
  }

  /** After any run the table holds a minted pairing exactly when every later operation spared it. */
  lemma {:induction false} TableMeaning(ops: seq<Op>, m: int)
    requires FreshDraws(ops) && 0 <= m < |ops| && Mints(ops[m])
    ensures PairingOf(ops[m]) in Replay(ops) <==> Pending(ops, m)
  {
    var n := |ops| - 1;
    var before, last, p := ops[..n], ops[n], PairingOf(ops[m]);
    assert ops == before + [last];
    if m < n {
      assert before[m] == ops[m];
      FreshPrefix(ops, n);
      TableMeaning(before, m);
      TableFromMints(before);
      OperationIsOnePass(Replay(before), last);
      SparedMembers(Replay(before), last, p);
      PendingStep(before, last, m);
      hide Spares, Newer, Spared, Remaining, Pending;
      assert p !in Added(last) by {
        if Mints(last) {
          assert !Clash(PairingOf(ops[m]), PairingOf(ops[n]));
        }
      }
    }
  }

  predicate Granted(ops: seq<Op>, i: nat)
    requires i < |ops|
  {
    ops[i].Consume? && Count(Live(Replay(ops[..i]), ops[i].now), ByToken(ops[i].tokenHash, ops[i].origin)) > 0
  }

  lemma {:induction false} LiveMembers(ps: seq<Pairing>, now: nat, p: Pairing)
    ensures p in Live(ps, now) <==> p in ps && p.expiry > now
  {
    if ps != [] {
      LiveMembers(ps[1..], now, p);
      assert ps == [ps[0]] + ps[1..];
    }
  }

  /** What the consumption `op` asks of the mint it spends. */
  predicate Redeems(op: Op, mint: Op) {
    op.Consume? && Mints(mint) && mint.tokenHash == op.tokenHash && mint.origin == op.origin && op.now < mint.now + 120_000
  }

  /**
   A consumption is granted exactly when an earlier mint by a valid session had that token and origin, its
   expiry is still ahead of the clock read, and every operation in between spared it.
   */
  lemma GrantedExactly(ops: seq<Op>, i: nat)
    requires FreshDraws(ops) && i < |ops| && ops[i].Consume?
    ensures Granted(ops, i) <==> exists m :: 0 <= m < i && Redeems(ops[i], ops[m]) && Pending(ops[..i], m)
  {
    hide Pending, Live, Replay;
    var before, op := ops[..i], ops[i];
    var test, table := ByToken(op.tokenHash, op.origin), Replay(before);
    FreshPrefix(ops, i);
    TableFromMints(before);
    CountZero(Live(table, op.now), test);
    if Granted(ops, i) {
      var p :| p in Live(table, op.now) && Matches(p, test);
      LiveMembers(table, op.now, p);
      var m :| 0 <= m < |before| && Mints(before[m]) && p == PairingOf(before[m]);
      TableMeaning(before, m);
      assert before[m] == ops[m];
      assert Redeems(ops[i], ops[m]) && Pending(ops[..i], m);
    }
    if m :| 0 <= m < i && Redeems(ops[i], ops[m]) && Pending(ops[..i], m) {
      assert before[m] == ops[m];
      TableMeaning(before, m);
      LiveMembers(table, op.now, PairingOf(ops[m]));
      assert Matches(PairingOf(ops[m]), test);
    }
  }

  /** One pairing establishes at most one session, however the clocks run. */
  lemma SpentAtMostOnce(ops: seq<Op>, i: nat, j: nat)
    requires FreshDraws(ops) && i < j < |ops| && Granted(ops, i) && Granted(ops, j)
    ensures ops[i].tokenHash != ops[j].tokenHash
  {
    if ops[i].tokenHash == ops[j].tokenHash {
      hide Granted, Pending, SparedAt;
      GrantedExactly(ops, i);
      GrantedExactly(ops, j);
      var m :| 0 <= m < i && Redeems(ops[i], ops[m]) && Pending(ops[..i], m);
      var n :| 0 <= n < j && Redeems(ops[j], ops[n]) && Pending(ops[..j], n);
      assert m == n;
      SpendingIsNotSparing(ops[..j], m, i);
    }
  }

  lemma SpendingIsNotSparing(ops: seq<Op>, m: int, i: int)
    requires 0 <= m < i < |ops| && Redeems(ops[i], ops[m])
    ensures !Pending(ops, m)
  {
    hide Newer, Replay;
    assert Matches(PairingOf(ops[m]), ByToken(ops[i].tokenHash, ops[i].origin));
    assert !SparedAt(ops, m, i);
  }

  // ---- the cap never costs a session its newest five -------------------------------------------

  /** How many of the operations are valid mints by this session. */
  function MintsBy(ops: seq<Op>, issuerHash: Bytes): nat {
    if ops == [] then 0
    else MintsBy(ops[..|ops| - 1], issuerHash) + (if Mints(ops[|ops| - 1]) && ops[|ops| - 1].issuer == Some(issuerHash) then 1 else 0)
  }

  lemma {:induction false} CountSpared(ps: seq<Pairing>, op: Op, test: Test)
    ensures Count(Spared(ps, op), test) <= Count(ps, test)
  {
    if ps != [] {
      CountSpared(ps[1..], op, test);
      CountAppend(if Spares(ps[0], ps[1..], op) then [ps[0]] else [], Spared(ps[1..], op), test);
    }
  }

  lemma {:induction false} NewerAppend(ps: seq<Pairing>, added: seq<Pairing>, p: Pairing)
    ensures p in ps ==> Newer(ps + added, p) == Newer(ps, p) + added
    ensures p !in ps && p !in added ==> Newer(ps + added, p) == []
    ensures p !in ps && added == [p] ==> Newer(ps + added, p) == []
  {
    if ps == [] {
      assert [] + added == added;
      if added != [] && p !in added {
        NewerAbsent(added, p);
      }
    } else {
      assert ps == [ps[0]] + ps[1..];
      assert (ps + added)[1..] == ps[1..] + added;
      NewerAppend(ps[1..], added, p);
    }
  }

  lemma {:induction false} NewerAbsent(ps: seq<Pairing>, p: Pairing)
    requires p !in ps
    ensures Newer(ps, p) == []
  {
    if ps != [] {
      NewerAbsent(ps[1..], p);
    }
  }

  lemma NewerStep(ps: seq<Pairing>, op: Op, p: Pairing, test: Test)
    requires Distinct(ps) && p !in Added(op)
    ensures Count(Newer(Apply(ps, op), p), test) <= Count(Newer(ps, p), test) + Count(Added(op), test)
  {
    var rest := Spared(ps, op);
    OperationIsOnePass(ps, op);
    SparedMembers(ps, op, p);
    NewerAppend(rest, Added(op), p);
    CountSpared(Newer(ps, p), op, test);
    CountAppend(Newer(rest, p), Added(op), test);
  }

  lemma NewestHasNoneNewer(before: seq<Op>, op: Op)
    requires FreshDraws(before + [op]) && Mints(op)
    ensures Newer(Apply(Replay(before), op), PairingOf(op)) == []
  {
    assert (before + [op])[..|before|] == before;
    FreshPrefix(before + [op], |before|);
    TableFromMints(before);
    NotYetMinted(before, op);
    OperationIsOnePass(Replay(before), op);
    SparedMembers(Replay(before), op, PairingOf(op));
    NewerAppend(Spared(Replay(before), op), Added(op), PairingOf(op));
  }

  lemma ReplayStep(before: seq<Op>, op: Op)
    ensures Replay(before + [op]) == Apply(Replay(before), op)
  {
    hide Apply;
    assert (before + [op])[..|before|] == before;
  }

  lemma MintsByStep(before: seq<Op>, op: Op, issuerHash: Bytes)
    ensures MintsBy(before + [op], issuerHash) == MintsBy(before, issuerHash) + Count(Added(op), ByIssuer(issuerHash))
  {
    assert (before + [op])[..|before|] == before;
  }

  lemma EarlierNotAdded(before: seq<Op>, op: Op, m: int)
    requires FreshDraws(before + [op]) && 0 <= m < |before| && Mints(before[m])
    ensures PairingOf(before[m]) !in Added(op)
  {
    var ops := before + [op];
    if Mints(op) {
      assert ops[m] == before[m] && ops[|before|] == op;
      assert !Clash(PairingOf(ops[m]), PairingOf(ops[|before|]));
    }
  }

  /** Behind a pairing the table never holds more of its session's than that session has minted since. */
  lemma {:induction false} NewerBound(ops: seq<Op>, m: int, issuerHash: Bytes)
    requires FreshDraws(ops) && 0 <= m < |ops| && Mints(ops[m])
    ensures Count(Newer(Replay(ops), PairingOf(ops[m])), ByIssuer(issuerHash)) <= MintsBy(ops[m + 1..], issuerHash)
  {
    hide Newer, Apply, Replay, FreshDraws, PairingOf, Added, MintsBy, Distinct;
    var n := |ops| - 1;
    var before, last := ops[..n], ops[n];
    assert ops == before + [last];
    ReplayStep(before, last);
    if m == n {
      NewestHasNoneNewer(before, last);
      assert Count([], ByIssuer(issuerHash)) == 0;
    } else {
      assert before[m] == ops[m];
      EarlierNotAdded(before, last, m);
      FreshPrefix(ops, n);
      TableFromMints(before);
      NewerBound(before, m, issuerHash);
      NewerStep(Replay(before), last, PairingOf(ops[m]), ByIssuer(issuerHash));
      assert ops[m + 1..] == before[m + 1..] + [last];
      MintsByStep(before[m + 1..], last, issuerHash);
    }
  }

  lemma {:induction false} CountLive(ps: seq<Pairing>, now: nat, test: Test)
    ensures Count(Live(ps, now), test) <= Count(ps, test)
  {
    CountShrinks(ps, now, test, test);
  }

  lemma {:induction false} MintsBySplit(a: seq<Op>, b: seq<Op>, issuerHash: Bytes)
    ensures MintsBy(a + b, issuerHash) == MintsBy(a, issuerHash) + MintsBy(b, issuerHash)
  {
    if b == [] {
      assert a + b == a;
    } else {
      assert (a + b)[..|a + b| - 1] == a + b[..|b| - 1];
      MintsBySplit(a, b[..|b| - 1], issuerHash);
    }
  }

  /** `op` neither spends nor revokes the pairing minted by `mint`, and read a clock before its expiry. */
  predicate LeavesAlone(op: Op, mint: Op)
    requires Mints(mint)
  {
    !Touches(op) || (op.now < mint.now + PAIRING_TTL && (!op.Mint? ==> !Matches(PairingOf(mint), Removes(op))))
  }

  lemma MintsByIncludes(ops: seq<Op>, m: nat, k: nat, issuerHash: Bytes)
    requires m < k < |ops| && Mints(ops[k]) && ops[k].issuer.value == issuerHash
    ensures MintsBy(ops[..k][m + 1..], issuerHash) < MintsBy(ops[m + 1..], issuerHash)
  {
    var upTo, since := ops[..k + 1][m + 1..], ops[k + 1..];
    assert ops[m + 1..] == upTo + since && upTo == ops[..k][m + 1..] + [ops[k]];
    MintsBySplit(upTo, since, issuerHash);
    MintsByStep(ops[..k][m + 1..], ops[k], issuerHash);
  }

  lemma WithinCapSpared(ops: seq<Op>, m: int, k: int)
    requires FreshDraws(ops) && 0 <= m < k < |ops| && Mints(ops[m]) && LeavesAlone(ops[k], ops[m])
    requires MintsBy(ops[m + 1..], ops[m].issuer.value) < MAX_PAIRINGS_PER_SESSION
    ensures SparedAt(ops, m, k)
  {
    hide FreshDraws, Replay, Newer, Live, Count, MintsBy;
    var op, issuerHash := ops[k], ops[m].issuer.value;
    if Mints(op) && op.issuer.value == issuerHash {
      var before := ops[..k];
      assert before[m] == ops[m];
      FreshPrefix(ops, k);
      NewerBound(before, m, issuerHash);
      CountLive(Newer(Replay(before), PairingOf(ops[m])), op.now, ByIssuer(issuerHash));
      MintsByIncludes(ops, m, k, issuerHash);
    }
  }

  /**
   A pairing offered with the right token and origin before its expiry is honoured, unless it was spent,
   revoked, or followed by five more mints from its own session; other sessions cannot push it out.
   */
  lemma HonouredWithinCap(ops: seq<Op>, m: int, i: nat)
    requires FreshDraws(ops) && 0 <= m < i < |ops| && Redeems(ops[i], ops[m])
    requires forall k :: m < k < i ==> LeavesAlone(ops[k], ops[m])
    requires MintsBy(ops[m + 1..i], ops[m].issuer.value) < 5
    ensures Granted(ops, i)
  {
    var before := ops[..i];
    assert before[m] == ops[m] && before[m + 1..] == ops[m + 1..i];
    FreshPrefix(ops, i);
    forall k | m < k < i
      ensures SparedAt(before, m, k)
    {
      assert before[k] == ops[k];
      WithinCapSpared(before, m, k);
    }
    hide Granted, SparedAt;
    assert Pending(before, m);
    GrantedExactly(ops, i);
  }

  // ---- six mints -----------------------------------------------------------------------------------

  lemma {:induction false} NewerLater(ps: seq<Pairing>, p: Pairing, q: Pairing)
    requires Distinct(ps) && p in ps && q in Newer(ps, p)
    ensures q in ps && Distinct(Newer(ps, p)) && Newer(Newer(ps, p), q) == Newer(ps, q) && p != q
  {
    DistinctTail(ps);
    assert ps == [ps[0]] + ps[1..];
    if ps[0] != p {
      NewerLater(ps[1..], p, q);
      assert Clash(q, q);
    } else {
      assert Clash(p, p);
    }
  }

  /** Whoever was minted later stands later in the table. */
  lemma {:induction false} MintOrder(ops: seq<Op>, m: int, j: int)
    requires FreshDraws(ops) && 0 <= m < j < |ops| && Mints(ops[m]) && Mints(ops[j])
    requires PairingOf(ops[m]) in Replay(ops) && PairingOf(ops[j]) in Replay(ops)
    ensures PairingOf(ops[j]) in Newer(Replay(ops), PairingOf(ops[m]))
  {
    hide Spares, Replay, FreshDraws, Distinct;
    var n := |ops| - 1;
    var before, last, p, q := ops[..n], ops[n], PairingOf(ops[m]), PairingOf(ops[j]);
    assert ops == before + [last];
    var ps := Replay(before);
    FreshPrefix(ops, n);
    TableFromMints(before);
    ReplayStep(before, last);
    OperationIsOnePass(ps, last);
    assert before[m] == ops[m];
    EarlierNotAdded(before, last, m);
    NewerAppend(Spared(ps, last), Added(last), p);
    SparedMembers(ps, last, p);
    if j < n {
      assert before[j] == ops[j];
      EarlierNotAdded(before, last, j);
      SparedMembers(ps, last, q);
      MintOrder(before, m, j);
      NewerLater(ps, p, q);
      SparedMembers(Newer(ps, p), last, q);
    }
  }

  /** While an earlier mint's pairing stands, a later one of its session can be evicted no more than it. */
  lemma SparedWithEarlier(ops: seq<Op>, m: int, j: int, k: int)
    requires FreshDraws(ops) && 0 <= m < j < k < |ops| && Mints(ops[m]) && Mints(ops[j])
    requires PairingOf(ops[m]) in Replay(ops[..k]) && SparedAt(ops, m, k)
    requires LeavesAlone(ops[k], ops[j]) && ops[j].issuer == ops[m].issuer
    ensures SparedAt(ops, j, k)
  {
    hide Replay, Live, Count, FreshDraws, Distinct;
    var table, p, q := Replay(ops[..k]), PairingOf(ops[m]), PairingOf(ops[j]);
    FreshPrefix(ops, k);
    TableFromMints(ops[..k]);
    if Mints(ops[k]) && ops[k].issuer == ops[j].issuer {
      var test := ByIssuer(q.issuerHash);
      if q in table {
        assert ops[..k][m] == ops[m] && ops[..k][j] == ops[j];
        MintOrder(ops[..k], m, j);
        NewerLater(table, p, q);
        NewerShrinks(Newer(table, p), q, ops[k].now, test);
      } else {
        NewerAbsent(table, q);
        NothingCounts(ops[k].now, test);
      }
    }
  }

  lemma NothingCounts(now: nat, test: Test)
    ensures Count(Live([], now), test) == 0
  {
  }

  /** Behind a live entry that matches there is at least one match fewer. */
  lemma {:induction false} NewerShrinks(ps: seq<Pairing>, q: Pairing, now: nat, test: Test)
    ensures Count(Live(Newer(ps, q), now), test) <= Count(Live(ps, now), test)
    ensures q in ps && q.expiry > now && Matches(q, test) ==>
      Count(Live(Newer(ps, q), now), test) + 1 <= Count(Live(ps, now), test)
  {
    if ps != [] {
      assert ps == [ps[0]] + ps[1..];
      CountAppend(if ps[0].expiry > now then [ps[0]] else [], Live(ps[1..], now), test);
      NewerShrinks(ps[1..], q, now, test);
    }
  }

  /** The pairings minted by `js`, in their order, by one session and left alone since by every operation up to `k`. */
  ghost predicate LeftAlone(ops: seq<Op>, js: seq<int>, issuerHash: Bytes, k: int)
    requires k < |ops|
  {
    && (forall a :: 0 <= a < |js| ==> 0 <= js[a] < k && Mints(ops[js[a]]) && ops[js[a]].issuer == Some(issuerHash))
    && (forall a, b :: 0 <= a < b < |js| ==> js[a] < js[b])
    && (forall a, i :: 0 <= a < |js| && js[a] < i <= k ==> LeavesAlone(ops[i], ops[js[a]]))
  }

  /** While an earlier pairing of the session stands, every later one left alone stands too. */
  lemma LaterStandsToo(ops: seq<Op>, m: int, j: int, k: int)
    requires FreshDraws(ops) && 0 <= m < j < k < |ops| && Mints(ops[m]) && Mints(ops[j]) && ops[j].issuer == ops[m].issuer
    requires Pending(ops[..k], m) && forall i :: j < i <= k ==> LeavesAlone(ops[i], ops[j])
    ensures PairingOf(ops[j]) in Replay(ops[..k])
  {
    hide Replay, Spares, Newer;
    var front := ops[..k];
    assert front[m] == ops[m] && front[j] == ops[j];
    FreshPrefix(ops, k);
    forall i | j < i < k
      ensures SparedAt(front, j, i)
    {
      assert front[i] == ops[i];
      assert front[..i][m] == ops[m];
      FreshPrefix(front, i);
      PendingPrefix(front, m, i);
      TableMeaning(front[..i], m);
      SparedWithEarlier(front, m, j, i);
    }
    assert Pending(front, j);
    TableMeaning(front, j);
  }

  lemma PendingPrefix(ops: seq<Op>, m: int, n: int)
    requires 0 <= m < n <= |ops|
    ensures Pending(ops, m) ==> Pending(ops[..n], m)
  {
    hide Replay, Spares, Newer;
    var front := ops[..n];
    assert front[m] == ops[m];
    if Pending(ops, m) {
      forall k | m < k < n
        ensures SparedAt(front, m, k)
      {
        assert front[..k] == ops[..k] && front[k] == ops[k];
        assert SparedAt(ops, m, k);
      }
    }
  }

  /** Each of them counts against the cap of the pairing they were minted after. */
  lemma {:induction false} LaterCount(ops: seq<Op>, m: int, js: seq<int>, k: int)
    requires FreshDraws(ops) && 0 <= m < k < |ops| && Mints(ops[m]) && Pending(ops[..k], m) && Mints(ops[k])
    requires LeftAlone(ops, js, ops[m].issuer.value, k) && (js != [] ==> m < js[0])
    ensures Count(Live(Newer(Replay(ops[..k]), PairingOf(ops[m])), ops[k].now), ByIssuer(ops[m].issuer.value)) >= |js|
    decreases |js|
  {
    if js != [] {
      hide Replay, Live, Count, SparedAt, Newer, Distinct, FreshDraws;
      var j, rest := js[0], js[1..];
      var table, p, q := Replay(ops[..k]), PairingOf(ops[m]), PairingOf(ops[j]);
      assert ops[..k][m] == ops[m] && ops[..k][j] == ops[j];
      FreshPrefix(ops, k);
      TableMeaning(ops[..k], m);
      LaterStandsToo(ops, m, j, k);
      TableMeaning(ops[..k], j);
      LeftAloneTail(ops, js, ops[m].issuer.value, k);
      LaterCount(ops, j, rest, k);
      MintOrder(ops[..k], m, j);
      TableFromMints(ops[..k]);
      NewerLater(table, p, q);
      assert LeavesAlone(ops[k], ops[j]);
      NewerShrinks(Newer(table, p), q, ops[k].now, ByIssuer(ops[m].issuer.value));
    }
  }

  lemma LeftAloneTail(ops: seq<Op>, js: seq<int>, issuerHash: Bytes, k: int)
    requires k < |ops| && LeftAlone(ops, js, issuerHash, k) && js != []
    ensures LeftAlone(ops, js[1..], issuerHash, k) && (js[1..] != [] ==> js[0] < js[1..][0])
  {
    hide LeavesAlone;
    var rest := js[1..];
    assert forall a :: 0 <= a < |rest| ==> rest[a] == js[a + 1];
  }

  /**
   Five is the exact cap: once a session has minted four more pairings, none of them spent, revoked or
   expired when it mints again, that sixth mint pushes the first one out, if it was still there.
   */
  lemma SixthMintEvicts(ops: seq<Op>, m: int, js: seq<int>, k: int)
    requires FreshDraws(ops) && 0 <= m < k < |ops| && Mints(ops[m]) && Mints(ops[k]) && ops[k].issuer == ops[m].issuer
    requires |js| == 4 && m < js[0] && LeftAlone(ops, js, ops[m].issuer.value, k)
    ensures PairingOf(ops[m]) !in Replay(ops)
  {
    hide Replay, Live, Count, Newer, LeavesAlone, FreshDraws;
    TableMeaning(ops, m);
    PendingPrefix(ops, m, k);
    if Pending(ops[..k], m) {
      LaterCount(ops, m, js, k);
      assert !SparedAt(ops, m, k);
    }
  }

  // ---- the wrong origin -------------------------------------------------------------------------------

  lemma {:induction false} LiveTwice(ps: seq<Pairing>, a: nat, b: nat)
    ensures Live(Live(ps, a), b) == Live(ps, Max(a, b))
  {
    if ps != [] {
      LiveTwice(ps[1..], a, b);
      if ps[0].expiry > a {
        assert ([ps[0]] + Live(ps[1..], a))[1..] == Live(ps[1..], a);
      } else {
        assert [] + Live(ps[1..], a) == Live(ps[1..], a);
      }
    }
  }

  /** Removing an entry nobody else asks for leaves what they count. */
  lemma {:induction false} WithoutOther(ps: seq<Pairing>, removed: Test, now: nat, test: Test)
    requires forall p :: !(Matches(p, removed) && Matches(p, test))
    ensures Count(Live(Without(ps, removed), now), test) == Count(Live(ps, now), test)
  {
    if ps != [] {
      var rest := Without(ps[1..], removed);
      WithoutOther(ps[1..], removed, now, test);
      CountAppend(if ps[0].expiry > now then [ps[0]] else [], Live(ps[1..], now), test);
      if !Matches(ps[0], removed) {
        assert ([ps[0]] + rest)[1..] == rest;
        CountAppend(if ps[0].expiry > now then [ps[0]] else [], Live(rest, now), test);
      }
    }
  }

  /**
   Offering a pairing from the wrong origin does not use it up. Whatever the two clocks read, the right
   origin is then served exactly as if nobody had tried and its clock had read the later of the two.
   */
  lemma WrongOriginExactly(ops: seq<Op>, attempt: Op, holder: Op)
    requires attempt.Consume? && holder.Consume?
    requires attempt.tokenHash != holder.tokenHash || attempt.origin != holder.origin
    ensures var n, later := |ops|, Max(attempt.now, holder.now);
      Granted(ops + [attempt, holder], n + 1) <==> Granted(ops + [Consume(holder.tokenHash, holder.origin, later)], n)
  {
    hide Replay, Live, Without;
    var n, later := |ops|, Max(attempt.now, holder.now);
    var plain, tried := ops + [Consume(holder.tokenHash, holder.origin, later)], ops + [attempt, holder];
    var table, test := Replay(ops), ByToken(holder.tokenHash, holder.origin);
    assert plain[..n] == ops && tried[..n + 1] == ops + [attempt];
    ReplayStep(ops, attempt);
    var left := Remaining(table, attempt);
    assert left + [] == left;
    LiveTwice(table, attempt.now, holder.now);
    WithoutOther(Live(table, attempt.now), ByToken(attempt.tokenHash, attempt.origin), holder.now, test);
  }

  /** When the holder's clock is not behind the attempt's, the attempt makes no difference at all. */
  lemma WrongOriginHarmless(ops: seq<Op>, attempt: Op, holder: Op)
    requires attempt.Consume? && holder.Consume?
    requires attempt.tokenHash != holder.tokenHash || attempt.origin != holder.origin
    requires attempt.now <= holder.now
    ensures Granted(ops + [attempt, holder], |ops| + 1) <==> Granted(ops + [holder], |ops|)
  {
    hide Granted;
    WrongOriginExactly(ops, attempt, holder);
  }
}
