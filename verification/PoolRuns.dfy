/** Any sequence of pool calls, failing ones included: what the accounting keeps. */
module PoolRuns {
  import opened MemorySim
  import Eviction

  datatype Op =
    | Alloc(id: string, session: string, tokens: int, size: real, t0: real, t1: real)
    | Access(id: string, t: real)
    | Free(id: string)

  ghost predicate Legal(op: Op) {
    op.Alloc? ==> op.size >= 0.0
  }

  ghost predicate AllLegal(ops: seq<Op>) {
    forall i :: 0 <= i < |ops| ==> Legal(ops[i])
  }

  function Fresh(total: real, policy: string): Pool {
    Pool(total, policy, [], 0.0, 0, 0, 0)
  }

  function Apply(p: Pool, op: Op): Pool {
    match op
    case Alloc(id, session, tokens, size, t0, t1) => Allocated(p, id, session, tokens, size, t0, t1).0
    case Access(id, t) => Touched(p, id, t)
    case Free(id) => Released(p, id)
  }

  function EvictedBy(p: Pool, op: Op): seq<string> {
    match op
    case Alloc(id, session, tokens, size, t0, t1) =>
      (match Allocated(p, id, session, tokens, size, t0, t1).1
       case Placed(evicted) => evicted
       case OutOfMemory => [])
    case _ => []
  }

  function Run(p: Pool, ops: seq<Op>): Pool {
    if |ops| == 0 then p else Apply(Run(p, ops[..|ops| - 1]), ops[|ops| - 1])
  }

  function VictimsBy(p: Pool, op: Op): nat {
    |EvictedBy(p, op)|
  }

  /** One call's contribution to a tally that the class itself does not keep. */
  function FreedBy(p: Pool, op: Op): nat {
    if op.Free? && Has(p.blocks, op.id) then 1 else 0
  }

  function DisplacedBy(p: Pool, op: Op): nat {
    if op.Alloc? && op.size <= p.total && Has(p.blocks, op.id) then 1 else 0
  }

  function RaisedBy(p: Pool, op: Op): nat {
    if op.Alloc? && Allocated(p, op.id, op.session, op.tokens, op.size, op.t0, op.t1).1.OutOfMemory? then 1 else 0
  }

  function Tally(p: Pool, ops: seq<Op>, each: (Pool, Op) -> nat): nat {
    if |ops| == 0 then 0
    else
      var before := ops[..|ops| - 1];
      Tally(p, before, each) + each(Run(p, before), ops[|ops| - 1])
  }

  lemma ApplyKeeps(p: Pool, op: Op)
    requires WellFormed(p) && Legal(op)
    ensures WellFormed(Apply(p, op)) && Apply(p, op).total == p.total && Apply(p, op).policy == p.policy
  {
    match op
    case Alloc(id, session, tokens, size, t0, t1) => AllocateKeeps(p, id, session, tokens, size, t0, t1);
    case Access(id, t) => TouchKeeps(p, id, t);
    case Free(id) => ReleaseKeeps(p, id);
  }

  lemma ApplyBalances(p: Pool, op: Op)
    requires WellFormed(p) && Legal(op)
    ensures var q := Apply(p, op);
      && q.allocations - |q.blocks| - q.evictions
         == p.allocations - |p.blocks| - p.evictions + FreedBy(p, op) + DisplacedBy(p, op)
      && q.evictions == p.evictions + |EvictedBy(p, op)|
      && q.ooms == p.ooms + RaisedBy(p, op)
  {
    if op.Alloc? && op.size <= p.total {
      var q := Released(p, op.id);
      ReleaseKeeps(p, op.id);
      MakeRoomKeeps(q, op.size);
      Eviction.OutOfMemoryIff(p, op.id, op.session, op.tokens, op.size, op.t0, op.t1);
    }
  }

  lemma {:induction false} RunKeeps(p: Pool, ops: seq<Op>)
    requires WellFormed(p) && AllLegal(ops)
    ensures WellFormed(Run(p, ops)) && Run(p, ops).total == p.total && Run(p, ops).policy == p.policy
  {
    if |ops| == 0 {
    } else {
      var before := ops[..|ops| - 1];
      RunKeeps(p, before);
      ApplyKeeps(Run(p, before), ops[|ops| - 1]);
    }
  }

  /** Footprint and ledger after any run from an empty pool. */
  lemma {:induction false} RunLedger(total: real, policy: string, ops: seq<Op>)
    requires total >= 0.0 && AllLegal(ops)
    ensures var p0 := Fresh(total, policy);
      var p := Run(p0, ops);
      && p.used == Sum(p.blocks) && 0.0 <= p.used <= total
      && Distinct(p.blocks)
      && p.allocations == |p.blocks| + p.evictions + Tally(p0, ops, FreedBy) + Tally(p0, ops, DisplacedBy)
      && p.ooms == Tally(p0, ops, RaisedBy)
      && p.evictions == Tally(p0, ops, VictimsBy)
  {
    var p0 := Fresh(total, policy);
    RunKeeps(p0, ops);
    SumNonNegative(Run(p0, ops).blocks);
    if |ops| == 0 {
    } else {
      var before := ops[..|ops| - 1];
      RunLedger(total, policy, before);
      RunKeeps(p0, before);
      ApplyBalances(Run(p0, before), ops[|ops| - 1]);
    }
  }
}
