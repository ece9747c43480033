/**
 The console's one-use pairing credentials (`state.rs`): a vector under a mutex, capped per issuing
 session, every operation first dropping what has expired.
 */
module Pairings {
  import opened Prelude
  import opened Auth

  /** Milliseconds. */
  const PAIRING_TTL := 120_000
  const MAX_PAIRINGS_PER_SESSION := 5

  /** Credentials are known by their hashes. */
  datatype Pairing = Pairing(id: Bytes, tokenHash: Bytes, issuerHash: Bytes, expiry: nat, origin: Bytes)

  /** The conditions entries are searched by. */
  datatype Test =
    | ByIssuer(issuerHash: Bytes)
    | ByToken(tokenHash: Bytes, origin: Bytes)
    | ById(id: Bytes, issuerHash: Bytes)

  predicate Matches(p: Pairing, test: Test) {
    match test
    case ByIssuer(issuerHash) => p.issuerHash == issuerHash
    case ByToken(tokenHash, origin) => p.tokenHash == tokenHash && p.origin == origin
    case ById(id, issuerHash) => p.id == id && p.issuerHash == issuerHash
  }

  function Live(ps: seq<Pairing>, now: nat): seq<Pairing> {
    if ps == [] then [] else (if ps[0].expiry > now then [ps[0]] else []) + Live(ps[1..], now)
  }

  function Count(ps: seq<Pairing>, test: Test): nat {
    if ps == [] then 0 else (if Matches(ps[0], test) then 1 else 0) + Count(ps[1..], test)
  }

  /** Drops the first match, if there is one. */
  function Without(ps: seq<Pairing>, test: Test): seq<Pairing> {
    if ps == [] then [] else if Matches(ps[0], test) then ps[1..] else [ps[0]] + Without(ps[1..], test)
  }

  /** Makes room for one more of the issuer's: all but its latest four go. */
  function Trimmed(ps: seq<Pairing>, issuerHash: Bytes): seq<Pairing> {
    if ps == [] then []
    else
      (if ps[0].issuerHash == issuerHash && Count(ps[1..], ByIssuer(issuerHash)) >= MAX_PAIRINGS_PER_SESSION - 1 then [] else [ps[0]])
      + Trimmed(ps[1..], issuerHash)
  }

  /** A session that is not valid is `None`. As with tickets, the clock is read before the mutex is taken. */
  datatype Op =
    | Mint(id: Bytes, tokenHash: Bytes, issuer: Option<Bytes>, origin: Bytes, now: nat)
    | Consume(tokenHash: Bytes, origin: Bytes, now: nat)
    | Revoke(id: Bytes, issuer: Option<Bytes>, now: nat)

  /** A valid session's mint. */
  predicate Mints(op: Op) {
    op.Mint? && op.issuer.Some?
  }

  /** Without a valid session neither minting nor revoking reaches the table. */
  predicate Touches(op: Op) {
    op.Consume? || op.issuer.Some?
  }

  function PairingOf(op: Op): Pairing
    requires Mints(op)
  {
    Pairing(op.id, op.tokenHash, op.issuer.value, op.now + PAIRING_TTL, op.origin)
  }

  /** What an operation leaves of the entries it finds. */
  function Remaining(ps: seq<Pairing>, op: Op): seq<Pairing> {
    if !Touches(op) then ps
    else
      match op
      case Mint(_, _, issuer, _, now) => Trimmed(Live(ps, now), issuer.value)
      case Consume(tokenHash, origin, now) => Without(Live(ps, now), ByToken(tokenHash, origin))
      case Revoke(id, issuer, now) => Without(Live(ps, now), ById(id, issuer.value))
  }

  function Added(op: Op): seq<Pairing> {
    if Mints(op) then [PairingOf(op)] else []
  }

  function Apply(ps: seq<Pairing>, op: Op): seq<Pairing> {
    Remaining(ps, op) + Added(op)
  }

  // ---- the table --------------------------------------------------------------------------

  lemma {:induction false} LiveSnoc(ps: seq<Pairing>, p: Pairing, now: nat)
    ensures Live(ps + [p], now) == Live(ps, now) + (if p.expiry > now then [p] else [])
  {
    if ps != [] {
      assert (ps + [p])[1..] == ps[1..] + [p];
      LiveSnoc(ps[1..], p, now);
    }
  }

  lemma {:induction false} CountAppend(a: seq<Pairing>, b: seq<Pairing>, test: Test)
    ensures Count(a + b, test) == Count(a, test) + Count(b, test)
  {
    if a == [] {
      assert a + b == b;
    } else {
      assert (a + b)[1..] == a[1..] + b;
      CountAppend(a[1..], b, test);
    }
  }

  lemma {:induction false} CountZero(ps: seq<Pairing>, test: Test)
    ensures Count(ps, test) == 0 <==> forall p :: p in ps ==> !Matches(p, test)
  {
    if ps != [] {
      CountZero(ps[1..], test);
      assert ps == [ps[0]] + ps[1..];
    }
  }

  lemma {:induction false} WithoutFirst(ps: seq<Pairing>, test: Test, index: nat)
    requires index < |ps| && Matches(ps[index], test) && forall k :: 0 <= k < index ==> !Matches(ps[k], test)
    ensures Without(ps, test) == ps[..index] + ps[index + 1..]
  {
    if index > 0 {
      WithoutFirst(ps[1..], test, index - 1);
      assert ps[..index] == [ps[0]] + ps[1..][..index - 1];
    }
  }

  lemma {:induction false} WithoutNone(ps: seq<Pairing>, test: Test)
    requires Count(ps, test) == 0
    ensures Without(ps, test) == ps
  {
    if ps != [] {
      WithoutNone(ps[1..], test);
    }
  }

  lemma {:induction false} CountWithout(ps: seq<Pairing>, test: Test)
    ensures Count(Without(ps, test), test) == Max(Count(ps, test) - 1, 0)
  {
    if ps != [] {
      CountWithout(ps[1..], test);
    }
  }

  /** Evicting the issuer's earliest entry does not change which four are the latest. */
  lemma {:induction false} TrimmedWithout(ps: seq<Pairing>, issuerHash: Bytes)
    requires Count(ps, ByIssuer(issuerHash)) >= MAX_PAIRINGS_PER_SESSION
    ensures Trimmed(Without(ps, ByIssuer(issuerHash)), issuerHash) == Trimmed(ps, issuerHash)
  {
    var test := ByIssuer(issuerHash);
    if Matches(ps[0], test) {
      assert [] + Trimmed(ps[1..], issuerHash) == Trimmed(ps[1..], issuerHash);
    } else {
      TrimmedWithout(ps[1..], issuerHash);
      var rest := Without(ps[1..], test);
      assert ([ps[0]] + rest)[1..] == rest;
    }
  }

  lemma {:induction false} TrimmedSmall(ps: seq<Pairing>, issuerHash: Bytes)
    requires Count(ps, ByIssuer(issuerHash)) < MAX_PAIRINGS_PER_SESSION
    ensures Trimmed(ps, issuerHash) == ps
  {
    if ps != [] {
      TrimmedSmall(ps[1..], issuerHash);
    }
  }

  method Check(entry: Pairing, test: Test) returns (matches: bool)
    ensures matches == Matches(entry, test)
  {
    match test {
      case ByIssuer(issuerHash) =>
        matches := ConstantTimeEq(entry.issuerHash, issuerHash);
      case ByToken(tokenHash, origin) =>
        matches := ConstantTimeEq(entry.tokenHash, tokenHash);
        if matches {
          matches := ConstantTimeEq(entry.origin, origin);
        }
      case ById(id, issuerHash) =>
        matches := ConstantTimeEq(entry.id, id);
        if matches {
          matches := ConstantTimeEq(entry.issuerHash, issuerHash);
        }
    }
  }

  class PairingTable {
    var pairings: seq<Pairing>

    constructor ()
      ensures pairings == []
    {
      pairings := [];
    }

    method Retain(now: nat)
      modifies this
      ensures pairings == Live(old(pairings), now)
    {
      var kept := [];
      for i := 0 to |pairings|
        invariant pairings == old(pairings)
        invariant kept == Live(pairings[..i], now)
      {
        LiveSnoc(pairings[..i], pairings[i], now);
        assert pairings[..i] + [pairings[i]] == pairings[..i + 1];
        if pairings[i].expiry > now {
          kept := kept + [pairings[i]];
        }
      }
      assert pairings[..|pairings|] == pairings;
      pairings := kept;
    }

    method Tally(test: Test) returns (count: nat)
      ensures count == Count(pairings, test)
    {
      count := 0;
      for i := 0 to |pairings|
        invariant count == Count(pairings[..i], test)
      {
        CountAppend(pairings[..i], [pairings[i]], test);
        assert pairings[..i] + [pairings[i]] == pairings[..i + 1];
        var matches := Check(pairings[i], test);
        if matches {
          count := count + 1;
        }
      }
      assert pairings[..|pairings|] == pairings;
    }

    method Position(test: Test) returns (index: Option<nat>)
      ensures match index
        case Some(found) => found < |pairings| && Matches(pairings[found], test) && forall k :: 0 <= k < found ==> !Matches(pairings[k], test)
        case None => forall p :: p in pairings ==> !Matches(p, test)
    {
      for i := 0 to |pairings|
        invariant forall k :: 0 <= k < i ==> !Matches(pairings[k], test)
      {
        var matches := Check(pairings[i], test);
        if matches {
          return Some(i);
        }
      }
      return None;
    }

    /** `position` and `remove`. */
    method RemoveFirst(test: Test) returns (removed: bool)
      modifies this
      ensures pairings == Without(old(pairings), test)
      ensures removed <==> Count(old(pairings), test) > 0
      ensures !removed ==> pairings == old(pairings)
    {
      CountZero(pairings, test);
      var index := Position(test);
      match index {
        case None =>
          WithoutNone(pairings, test);
          return false;
        case Some(found) =>
          WithoutFirst(pairings, test, found);
          assert pairings[found] in pairings;
          pairings := pairings[..found] + pairings[found + 1..];
          return true;
      }
    }

    /** `mint_pairing`, given fresh identifiers and the issuing session's hash if that session is valid. */
    method MintPairing(id: Bytes, tokenHash: Bytes, issuer: Option<Bytes>, origin: Bytes, now: nat) returns (minted: bool)
      modifies this
      ensures minted == issuer.Some?
      ensures pairings == Apply(old(pairings), Mint(id, tokenHash, issuer, origin, now))
    {
      if issuer.None? {
        assert pairings + [] == pairings;
        return false;
      }
      Retain(now);
      ghost var live := pairings;
      var count := Tally(ByIssuer(issuer.value));
      while count >= MAX_PAIRINGS_PER_SESSION
        invariant count == Count(pairings, ByIssuer(issuer.value))
        invariant Trimmed(pairings, issuer.value) == Trimmed(live, issuer.value)
        decreases count
      {
        TrimmedWithout(pairings, issuer.value);
        CountWithout(pairings, ByIssuer(issuer.value));
        var removed := RemoveFirst(ByIssuer(issuer.value));
        if !removed {
          assert false;
          break;
        }
        count := Tally(ByIssuer(issuer.value));
      }
      TrimmedSmall(pairings, issuer.value);
      pairings := pairings + [Pairing(id, tokenHash, issuer.value, now + PAIRING_TTL, origin)];
      return true;
    }

    method ConsumePairing(tokenHash: Bytes, origin: Bytes, now: nat) returns (spent: bool)
      modifies this
      ensures spent <==> Count(Live(old(pairings), now), ByToken(tokenHash, origin)) > 0
      ensures pairings == Apply(old(pairings), Consume(tokenHash, origin, now))
      ensures !spent ==> pairings == Live(old(pairings), now)
    {
      Retain(now);
      spent := RemoveFirst(ByToken(tokenHash, origin));
      assert pairings + [] == pairings;
    }

    method RevokePairing(id: Bytes, issuer: Option<Bytes>, now: nat) returns (revoked: bool)
      modifies this
      ensures revoked <==> issuer.Some? && Count(Live(old(pairings), now), ById(id, issuer.value)) > 0
      ensures pairings == Apply(old(pairings), Revoke(id, issuer, now))
    {
      if issuer.None? {
        assert pairings + [] == pairings;
        return false;
      }
      Retain(now);
      revoked := RemoveFirst(ById(id, issuer.value));
      assert pairings + [] == pairings;
    }
  }
}
