/** The console's stream tickets (`state.rs`): minted for one instance, spent once, dropped when expired. */
module Tickets {
  import opened Prelude
  import opened Auth

  /** Milliseconds. */
  const TICKET_TTL := 30_000

  datatype Ticket = Ticket(expiry: nat, instance: string)

  type Table = map<Bytes, Ticket>

  function Live(table: Table, now: nat): Table {
    map token | token in table && table[token].expiry > now :: table[token]
  }

  predicate Accepts(table: Table, token: Bytes, instance: string, now: nat) {
    token in table && table[token].expiry > now && table[token].instance == instance
  }

  /**
   Every operation holds the table's mutex, but its clock reading was taken before, so in a run of
   operations the readings may go backwards. A run is any sequence of operations, each with its reading.
   */
  datatype Op =
    | Mint(token: Bytes, instance: string, now: nat)
    | Consume(token: Bytes, instance: string, now: nat)

  function Apply(table: Table, op: Op): Table {
    match op
    case Mint(token, instance, now) => Live(table, now)[token := Ticket(now + TICKET_TTL, instance)]
    case Consume(token, instance, now) =>
      if Accepts(table, token, instance, now) then Live(table, now) - {token} else Live(table, now)
  }

  class TicketTable {
    var tickets: Table

    constructor ()
      ensures tickets == map[]
    {
      tickets := map[];
    }

    method Retain(now: nat)
      modifies this
      ensures tickets == Live(old(tickets), now)
    {
      tickets := map token | token in tickets && tickets[token].expiry > now :: tickets[token];
    }

    method MintTicket(token: Bytes, instance: string, now: nat)
      modifies this
      ensures tickets == Apply(old(tickets), Mint(token, instance, now))
    {
      Retain(now);
      tickets := tickets[token := Ticket(now + TICKET_TTL, instance)];
    }

    /** `iter().find(…)`: the entries come in no particular order, and every comparison is in constant time. */
    method Find(candidate: Bytes, instance: string) returns (stored: Option<Bytes>)
      ensures stored == if candidate in tickets && tickets[candidate].instance == instance then Some(candidate) else None
    {
      var unseen := tickets.Keys;
      while unseen != {}
        invariant unseen <= tickets.Keys
        invariant candidate in tickets.Keys - unseen ==> tickets[candidate].instance != instance
        decreases unseen
      {
        var token :| token in unseen;
        var same := ConstantTimeEq(token, candidate);
        if same && tickets[token].instance == instance {
          return Some(token);
        }
        unseen := unseen - {token};
      }
      return None;
    }

    method ConsumeTicket(candidate: Bytes, instance: string, now: nat) returns (spent: bool)
      modifies this
      ensures spent == Accepts(old(tickets), candidate, instance, now)
      ensures tickets == Apply(old(tickets), Consume(candidate, instance, now))
      ensures !spent ==> tickets == Live(old(tickets), now)
    {
      Retain(now);
      var stored := Find(candidate, instance);
      if stored.None? {
        return false;
      }
      tickets := tickets - {stored.value};
      return true;
    }
  }

  // ---- runs ------------------------------------------------------------------------------

  function Replay(ops: seq<Op>): Table {
    if ops == [] then map[] else Apply(Replay(ops[..|ops| - 1]), ops[|ops| - 1])
  }

  /** Whether operation `i` of a run is a consumption that was granted. */
  predicate Granted(ops: seq<Op>, i: nat)
    requires i < |ops|
  {
    ops[i].Consume? && Accepts(Replay(ops[..i]), ops[i].token, ops[i].instance, ops[i].now)
  }

  /** Operation `op` leaves a ticket minted by `mint` alone: it read a clock before the expiry, and neither mints nor spends it. */
  predicate Spares(op: Op, mint: Op)
    requires mint.Mint?
  {
    && op.now < mint.now + TICKET_TTL
    && (op.token == mint.token ==> op.Consume? && op.instance != mint.instance)
  }

  /** Operation `m` minted `token`, and every operation since spared it. */
  ghost predicate Pending(ops: seq<Op>, token: Bytes, m: int) {
    0 <= m < |ops| && ops[m].Mint? && ops[m].token == token && forall k :: m < k < |ops| ==> Spares(ops[k], ops[m])
  }

  lemma PendingIsLatest(ops: seq<Op>, token: Bytes, m: int, n: int)
    requires Pending(ops, token, m) && Pending(ops, token, n)
    ensures m == n
  {
  }

  lemma PendingStep(before: seq<Op>, op: Op, token: Bytes, m: nat)
    requires m < |before|
    ensures Pending(before + [op], token, m) <==> Pending(before, token, m) && Spares(op, before[m])
  {
    var ops := before + [op];
    assert ops[m] == before[m];
    if Pending(ops, token, m) {
      assert ops[|before|] == op;
      forall k | m < k < |before|
        ensures Spares(before[k], before[m])
      {
        assert ops[k] == before[k];
      }
    }
  }

  /** What the table says about a token after any run is exactly its pending mint. */
  lemma {:induction false} TableMeaning(ops: seq<Op>, token: Bytes)
    ensures token in Replay(ops) <==> exists m :: Pending(ops, token, m)
    ensures forall m :: Pending(ops, token, m) ==>
      token in Replay(ops) && Replay(ops)[token] == Ticket(ops[m].now + TICKET_TTL, ops[m].instance)
  {
    if ops != [] {
      var before, last := ops[..|ops| - 1], ops[|ops| - 1];
      assert ops == before + [last];
      TableMeaning(before, token);
      forall m | 0 <= m < |before|
        ensures Pending(ops, token, m) <==> Pending(before, token, m) && Spares(last, before[m])
      {
        PendingStep(before, last, token, m);
      }
      if last.Mint? && last.token == token {
        assert Pending(ops, token, |before|);
        forall m | Pending(ops, token, m)
          ensures m == |before|
        {
          PendingIsLatest(ops, token, m, |before|);
        }
      } else {
        assert !Pending(ops, token, |before|);
        if token in Replay(before) {
          var m :| Pending(before, token, m);
          assert token in Replay(ops) <==> Spares(last, before[m]);
        }
      }
    }
  }

  /**
   A consumption is granted exactly when the same token was minted for the same instance by an earlier
   operation, no clock read since (its own included) had reached that ticket's expiry, and no operation
   in between minted the token again or presented it for that instance.
   */
  lemma GrantedExactly(ops: seq<Op>, i: nat)
    requires i < |ops| && ops[i].Consume?
    ensures Granted(ops, i) <==>
      exists m :: m < i && Pending(ops[..i], ops[i].token, m) && ops[m].instance == ops[i].instance && ops[i].now < ops[m].now + 30_000
  {
    var before, token := ops[..i], ops[i].token;
    TableMeaning(before, token);
    if Granted(ops, i) {
      var m :| Pending(before, token, m);
      assert before[m] == ops[m];
    }
    if m :| m < i && Pending(before, token, m) && ops[m].instance == ops[i].instance && ops[i].now < ops[m].now + 30_000 {
      assert before[m] == ops[m];
    }
  }

  /** Between two granted consumptions of a token it was minted anew: one mint is spent at most once. */
  lemma SpentAtMostOnce(ops: seq<Op>, i: nat, j: nat)
    requires i < j < |ops| && Granted(ops, i) && Granted(ops, j) && ops[i].token == ops[j].token
    ensures exists m :: i < m < j && ops[m].Mint? && ops[m].token == ops[i].token
  {
    hide Accepts, Replay, Live;
    var token, early, late := ops[i].token, ops[..i], ops[..j];
    GrantedExactly(ops, i);
    GrantedExactly(ops, j);
    var m :| m < i && Pending(early, token, m) && ops[m].instance == ops[i].instance;
    var n :| n < j && Pending(late, token, n) && ops[n].instance == ops[j].instance;
    assert late[n] == ops[n] && early[m] == ops[m] && late[i] == ops[i];
    if n <= i {
      assert false;
    }
  }

  /** A token drawn fresh, that is minted once in the whole run, is spent at most once in it. */
  lemma FreshTicketSpentOnce(ops: seq<Op>, i: nat, j: nat)
    requires i < j < |ops| && ops[i].token == ops[j].token
    requires forall a, b :: 0 <= a < b < |ops| && ops[a].Mint? && ops[b].Mint? && ops[a].token == ops[i].token ==> ops[b].token != ops[i].token
    ensures !(Granted(ops, i) && Granted(ops, j))
  {
    if Granted(ops, i) && Granted(ops, j) {
      GrantedExactly(ops, i);
      SpentAtMostOnce(ops, i, j);
      assert false;
    }
  }

  /**
   A ticket offered to the wrong instance is not spent. Whatever the two clocks read, the right holder is
   then served exactly as if nobody had tried and the holder's clock had read the later of the two.
   */
  lemma WrongInstanceExactly(ops: seq<Op>, attempt: Op, holder: Op)
    requires attempt.Consume? && holder.Consume?
    requires attempt.token != holder.token || attempt.instance != holder.instance
    ensures var n, later := |ops|, Max(attempt.now, holder.now);
      Granted(ops + [attempt, holder], n + 1) <==> Granted(ops + [Consume(holder.token, holder.instance, later)], n)
  {
    var n, later := |ops|, Max(attempt.now, holder.now);
    var plain, tried := ops + [Consume(holder.token, holder.instance, later)], ops + [attempt, holder];
    assert plain[..n] == ops;
    assert tried[..n + 1][..n] == ops && tried[..n + 1][n] == attempt;
    assert Replay(tried[..n + 1]) == Apply(Replay(ops), attempt);
  }

  /** When the holder's clock is not behind the attempt's, the attempt makes no difference at all. */
  lemma WrongInstanceHarmless(ops: seq<Op>, attempt: Op, holder: Op)
    requires attempt.Consume? && holder.Consume?
    requires attempt.token != holder.token || attempt.instance != holder.instance
    requires attempt.now <= holder.now
    ensures var n := |ops|; Granted(ops + [attempt, holder], n + 1) <==> Granted(ops + [holder], n)
  {
    WrongInstanceExactly(ops, attempt, holder);
  }
}
