/** Reads the pool's contents off the list of calls that produced it. */
module History {
  import opened Prelude
  import opened MemorySim
  import opened PoolRuns

  /** `allocate` calls above the pool size return before they look at the dict. */
  predicate Effective(total: real, op: Op) {
    op.Alloc? && op.size <= total
  }

  predicate Uses(total: real, op: Op, id: string) {
    (Effective(total, op) || op.Access?) && op.id == id
  }

  /** The last clock reading a call makes. */
  function End(op: Op): real {
    if op.Alloc? then op.t1 else if op.Access? then op.t else 0.0
  }

  function Start(op: Op): real {
    if op.Alloc? then op.t0 else End(op)
  }

  function LastAlloc(total: real, ops: seq<Op>, id: string): (k: Option<nat>)
    ensures k.Some? ==> k.value < |ops| && ops[k.value].id == id && Effective(total, ops[k.value])
    ensures forall j :: (if k.Some? then k.value else -1) < j < |ops| ==> !(Effective(total, ops[j]) && ops[j].id == id)
  {
    var n := |ops| - 1;
    if n < 0 then None
    else if Effective(total, ops[n]) && ops[n].id == id then Some(n)
    else LastAlloc(total, ops[..n], id)
  }

  function LastUse(total: real, ops: seq<Op>, id: string): (k: Option<nat>)
    ensures k.Some? ==> k.value < |ops| && Uses(total, ops[k.value], id)
    ensures forall j :: (if k.Some? then k.value else -1) < j < |ops| ==> !Uses(total, ops[j], id)
  {
    var n := |ops| - 1;
    if n < 0 then None
    else if Uses(total, ops[n], id) then Some(n)
    else LastUse(total, ops[..n], id)
  }

  /** A block is what its last allocation stored, stamped by its last use. */
  ghost predicate AccountsFor(total: real, ops: seq<Op>, b: Block) {
    var k := LastAlloc(total, ops, b.id);
    var u := LastUse(total, ops, b.id);
    && k.Some? && u.Some? && k.value <= u.value
    && b == Block(b.id, ops[k.value].session, ops[k.value].tokens, ops[k.value].size, ops[k.value].t0, End(ops[u.value]))
  }

  /** Where the blocks after one call come from. */
  lemma ApplyMembers(p: Pool, op: Op, b: Block)
    requires WellFormed(p) && Legal(op) && b in Apply(p, op).blocks
    ensures op.Alloc? && Effective(p.total, op) ==>
      (b in p.blocks && b.id != op.id) || b == Block(op.id, op.session, op.tokens, op.size, op.t0, op.t1)
    ensures op.Alloc? && !Effective(p.total, op) ==> b in p.blocks
    ensures op.Access? ==>
      (b in p.blocks && b.id != op.id) || (b.id == op.id && exists a :: a in p.blocks && a.id == b.id && b == a.(accessed := op.t))
    ensures op.Free? ==> b in p.blocks && b.id != op.id
  {
    if op.Alloc? && Effective(p.total, op) {
      ReleaseKeeps(p, op.id);
      MakeRoomKeeps(Released(p, op.id), op.size);
    } else if op.Access? {
      HasMember(p.blocks, op.id);
      var i := Find(p.blocks, op.id);
      if i < |p.blocks| && b.id == op.id {
        var j :| 0 <= j < |p.blocks| && Touched(p, op.id, op.t).blocks[j] == b;
        FindAt(p.blocks, j);
        assert j == i && p.blocks[i] in p.blocks;
      }
    } else if op.Free? {
      ReleaseKeeps(p, op.id);
    }
  }

  /** Every block in the pool is explained by the calls made so far. */
  lemma {:induction false} Provenance(total: real, policy: string, ops: seq<Op>, b: Block)
    requires total >= 0.0 && AllLegal(ops)
    requires b in Run(Fresh(total, policy), ops).blocks
    ensures AccountsFor(total, ops, b)
  {
    if |ops| == 0 {
    } else {
      var n := |ops| - 1;
      var before := ops[..n];
      var p := Run(Fresh(total, policy), before);
      RunKeeps(Fresh(total, policy), before);
      ApplyMembers(p, ops[n], b);
      if b in p.blocks {
        Provenance(total, policy, before, b);
      } else if ops[n].Access? {
        var a :| a in p.blocks && a.id == b.id && b == a.(accessed := ops[n].t);
        Provenance(total, policy, before, a);
      }
    }
  }

  /** Every clock reading is later than all earlier ones. */
  ghost predicate StrictClock(ops: seq<Op>) {
    && (forall i :: 0 <= i < |ops| ==> Start(ops[i]) <= End(ops[i]))
    && forall i, j :: 0 <= i < j < |ops| && !ops[i].Free? && !ops[j].Free? ==> End(ops[i]) < Start(ops[j])
  }

  /** No clock reading is earlier than a previous one. */
  ghost predicate SteadyClock(ops: seq<Op>) {
    && (forall i :: 0 <= i < |ops| ==> Start(ops[i]) <= End(ops[i]))
    && forall i, j :: 0 <= i < j < |ops| && !ops[i].Free? && !ops[j].Free? ==> End(ops[i]) <= Start(ops[j])
  }

  ghost predicate DistinctTimes(bs: seq<Block>) {
    forall i, j :: 0 <= i < j < |bs| ==> bs[i].accessed != bs[j].accessed
  }

  /** Each access time is the reading some call made for that id. */
  lemma AccessReading(total: real, policy: string, ops: seq<Op>, b: Block) returns (u: nat)
    requires total >= 0.0 && AllLegal(ops)
    requires b in Run(Fresh(total, policy), ops).blocks
    ensures u < |ops| && !ops[u].Free? && ops[u].id == b.id && b.accessed == End(ops[u])
  {
    Provenance(total, policy, ops, b);
    u := LastUse(total, ops, b.id).value;
  }

  lemma ReadingsDiffer(ops: seq<Op>, u: nat, v: nat)
    requires StrictClock(ops) && u < |ops| && v < |ops| && !ops[u].Free? && !ops[v].Free?
    ensures ops[u].id != ops[v].id ==> End(ops[u]) != End(ops[v])
  {
    if u < v {
      assert End(ops[u]) < Start(ops[v]);
    } else if v < u {
      assert End(ops[v]) < Start(ops[u]);
    }
  }

  /** With a strict clock no two blocks share an access time. */
  lemma StrictTimes(total: real, policy: string, ops: seq<Op>)
    requires total >= 0.0 && AllLegal(ops) && StrictClock(ops)
    ensures DistinctTimes(Run(Fresh(total, policy), ops).blocks)
  {
    var bs := Run(Fresh(total, policy), ops).blocks;
    assert Distinct(bs) by { RunKeeps(Fresh(total, policy), ops); }
    forall i, j | 0 <= i < j < |bs| ensures bs[i].accessed != bs[j].accessed {
      var u := AccessReading(total, policy, ops, bs[i]);
      var v := AccessReading(total, policy, ops, bs[j]);
      ReadingsDiffer(ops, u, v);
    }
  }

  lemma EarlierThanNext(total: real, policy: string, ops: seq<Op>, b: Block)
    requires total >= 0.0 && AllLegal(ops) && |ops| > 0 && !ops[|ops| - 1].Free?
    requires b in Run(Fresh(total, policy), ops[..|ops| - 1]).blocks
    ensures StrictClock(ops) ==> b.accessed < Start(ops[|ops| - 1])
    ensures SteadyClock(ops) ==> b.accessed <= Start(ops[|ops| - 1]) && b.created <= Start(ops[|ops| - 1])
  {
    var before := ops[..|ops| - 1];
    Provenance(total, policy, before, b);
    var u, k := LastUse(total, before, b.id).value, LastAlloc(total, before, b.id).value;
    assert before[u] == ops[u] && before[k] == ops[k];
  }
}
