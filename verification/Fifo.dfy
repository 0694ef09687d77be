/** The dict's insertion order is creation order, so FIFO always evicts its head;
    without touches LRU does exactly the same. */
module Fifo {
  import opened Prelude
  import opened Ordering
  import opened MemorySim
  import opened Eviction
  import opened PoolRuns
  import opened History

  ghost predicate TouchFree(ops: seq<Op>) {
    forall i :: 0 <= i < |ops| ==> !ops[i].Access?
  }

  lemma RemoveAtStaysSorted(bs: seq<Block>, i: nat, key: Block -> real)
    requires i < |bs| && Sorted(bs, key)
    ensures Sorted(RemoveAt(bs, i), key)
  {
    var cs := RemoveAt(bs, i);
    assert forall k :: 0 <= k < |cs| ==> cs[k] == bs[if k < i then k else k + 1];
  }

  lemma {:induction false} MakeRoomStaysSorted(p: Pool, size: real, key: Block -> real)
    requires Sorted(p.blocks, key)
    ensures Sorted(MakeRoom(p, size).pool.blocks, key)
    decreases |p.blocks|
  {
    if p.used + size > p.total && Victim(p).Some? {
      RemoveAtStaysSorted(p.blocks, Victim(p).value, key);
      MakeRoomStaysSorted(EvictAt(p, Victim(p).value), size, key);
    }
  }

  lemma ReleasedStaysSorted(p: Pool, id: string, key: Block -> real)
    requires Sorted(p.blocks, key)
    ensures Sorted(Released(p, id).blocks, key)
  {
    if Has(p.blocks, id) {
      RemoveAtStaysSorted(p.blocks, Find(p.blocks, id), key);
    }
  }

  lemma AllocStaysSorted(p: Pool, op: Op, key: Block -> real)
    requires WellFormed(p) && op.Alloc? && Sorted(p.blocks, key)
    requires forall b :: b in p.blocks ==> key(b) <= key(Block(op.id, op.session, op.tokens, op.size, op.t0, op.t1))
    ensures Sorted(Apply(p, op).blocks, key)
  {
    if Effective(p.total, op) {
      var q := Released(p, op.id);
      var bs := MakeRoom(q, op.size).pool.blocks;
      ReleasedStaysSorted(p, op.id, key);
      MakeRoomStaysSorted(q, op.size, key);
      forall i | 0 <= i < |bs| ensures bs[i] in p.blocks {
        ReleaseKeeps(p, op.id);
        MakeRoomKeeps(q, op.size);
        assert bs[i] in bs;
      }
    }
  }

  lemma ApplyStaysSorted(p: Pool, op: Op, key: Block -> real)
    requires WellFormed(p) && Sorted(p.blocks, key)
    requires key == CreatedAt() || (key == AccessedAt() && !op.Access?)
    requires !op.Free? ==> Start(op) <= End(op) && forall b :: b in p.blocks ==> key(b) <= Start(op)
    ensures Sorted(Apply(p, op).blocks, key)
  {
    match op {
      case Alloc(_, _, _, _, _, _) => AllocStaysSorted(p, op, key);
      case Access(id, t) =>
      case Free(id) => ReleasedStaysSorted(p, id, key);
    }
  }

  lemma SteadyClockPrefix(ops: seq<Op>)
    requires |ops| > 0 && SteadyClock(ops)
    ensures SteadyClock(ops[..|ops| - 1])
  {
    var before := ops[..|ops| - 1];
    assert forall i :: 0 <= i < |before| ==> before[i] == ops[i];
  }

  /** Insertion order is creation order, under any policy and any steady clock. */
  lemma {:induction false} InsertionOrder(total: real, policy: string, ops: seq<Op>)
    requires total >= 0.0 && AllLegal(ops) && SteadyClock(ops)
    ensures Sorted(Run(Fresh(total, policy), ops).blocks, CreatedAt())
    ensures TouchFree(ops) ==> Sorted(Run(Fresh(total, policy), ops).blocks, AccessedAt())
  {
    if |ops| == 0 {
    } else {
      var before, op := ops[..|ops| - 1], ops[|ops| - 1];
      var p := Run(Fresh(total, policy), before);
      SteadyClockPrefix(ops);
      InsertionOrder(total, policy, before);
      RunKeeps(Fresh(total, policy), before);
      if !op.Free? {
        forall b | b in p.blocks ensures b.created <= Start(op) && b.accessed <= Start(op) {
          EarlierThanNext(total, policy, ops, b);
        }
      }
      ApplyStaysSorted(p, op, CreatedAt());
      if TouchFree(ops) {
        ApplyStaysSorted(p, op, AccessedAt());
      }
    }
  }

  lemma {:induction false} WithoutFront(bs: seq<Block>, k: nat)
    requires Distinct(bs) && k <= |bs|
    ensures Without(bs, BlockIds(bs[..k])) == bs[k..]
  {
    if k == 0 {
      WithoutNothing(bs);
    } else {
      assert bs[..k][1..] == bs[1..][..k - 1];
      assert RemoveAt(bs, 0) == bs[1..];
      WithoutRemoveAt(bs, 0, BlockIds(bs[1..][..k - 1]));
      WithoutFront(bs[1..], k - 1);
    }
  }

  lemma {:induction false} WithoutIsDistinctAndSorted(p: Pool, id: string, key: Block -> real)
    requires WellFormed(p) && Sorted(p.blocks, key)
    ensures Distinct(Without(p.blocks, [id])) && Sorted(Without(p.blocks, [id]), key)
  {
    ReleasedIsWithout(p, id);
    ReleaseKeeps(p, id);
    if Has(p.blocks, id) {
      RemoveAtStaysSorted(p.blocks, Find(p.blocks, id), key);
    }
  }

  /** A successful FIFO allocation drops the least number of blocks from the dict's front. */
  lemma FifoEvictsTheFront(total: real, ops: seq<Op>, op: Op)
    requires total >= 0.0 && AllLegal(ops) && SteadyClock(ops) && Legal(op)
    requires var p := Run(Fresh(total, "fifo"), ops);
      op.Alloc? && Allocated(p, op.id, op.session, op.tokens, op.size, op.t0, op.t1).1.Placed?
    ensures var p := Run(Fresh(total, "fifo"), ops);
      var base := Without(p.blocks, [op.id]);
      var k := |EvictedBy(p, op)|;
      && IsLeastRoom(base, BaseUse(p, op.id), op.size, total, k)
      && EvictedBy(p, op) == BlockIds(base[..k])
      && Apply(p, op).blocks == base[k..] + [Block(op.id, op.session, op.tokens, op.size, op.t0, op.t1)]
  {
    var p := Run(Fresh(total, "fifo"), ops);
    var base := Without(p.blocks, [op.id]);
    RunKeeps(Fresh(total, "fifo"), ops);
    InsertionOrder(total, "fifo", ops);
    WithoutIsDistinctAndSorted(p, op.id, CreatedAt());
    SortIsStable(base, CreatedAt());
    StableSortIsUnique(base, Sort(base, CreatedAt()), CreatedAt());
    AllocateIsExact(p, op.id, op.session, op.tokens, op.size, op.t0, op.t1);
    WithoutFront(base, |EvictedBy(p, op)|);
  }

  lemma SortedVictimIsHead(p: Pool)
    requires |p.blocks| > 0 && p.policy != "none" && Sorted(p.blocks, Key(p.policy))
    ensures Victim(p) == Some(0)
  {
    var key := Key(p.policy);
    assert key(p.blocks[0]) <= key(p.blocks[MinIndex(p.blocks, key)]);
  }

  lemma EvictHeadIgnoresKey(p: Pool, size: real)
    requires p.policy != "none" && Sorted(p.blocks, CreatedAt()) && Sorted(p.blocks, AccessedAt())
    requires p.used + size > p.total && |p.blocks| > 0
    ensures var f := p.(policy := "fifo");
      && EvictAt(f, 0) == EvictAt(p, 0).(policy := "fifo")
      && (var r := MakeRoom(EvictAt(p, 0), size); MakeRoom(p, size) == Room(r.pool, [p.blocks[0].id] + r.evicted, r.ok))
      && (var r := MakeRoom(EvictAt(f, 0), size); MakeRoom(f, size) == Room(r.pool, [p.blocks[0].id] + r.evicted, r.ok))
  {
    SortedVictimIsHead(p);
    SortedVictimIsHead(p.(policy := "fifo"));
  }

  lemma {:induction false} MakeRoomIgnoresKey(p: Pool, size: real)
    requires p.policy != "none" && Sorted(p.blocks, CreatedAt()) && Sorted(p.blocks, AccessedAt())
    ensures var r := MakeRoom(p, size);
      MakeRoom(p.(policy := "fifo"), size) == Room(r.pool.(policy := "fifo"), r.evicted, r.ok)
    decreases |p.blocks|
  {
    if p.used + size > p.total && |p.blocks| > 0 {
      EvictHeadIgnoresKey(p, size);
      RemoveAtStaysSorted(p.blocks, 0, CreatedAt());
      RemoveAtStaysSorted(p.blocks, 0, AccessedAt());
      MakeRoomIgnoresKey(EvictAt(p, 0), size);
    }
  }

  lemma ReleasedIgnoresKey(p: Pool, id: string)
    requires Sorted(p.blocks, CreatedAt()) && Sorted(p.blocks, AccessedAt())
    ensures Released(p.(policy := "fifo"), id) == Released(p, id).(policy := "fifo")
    ensures Sorted(Released(p, id).blocks, CreatedAt()) && Sorted(Released(p, id).blocks, AccessedAt())
  {
    if Has(p.blocks, id) {
      RemoveAtStaysSorted(p.blocks, Find(p.blocks, id), CreatedAt());
      RemoveAtStaysSorted(p.blocks, Find(p.blocks, id), AccessedAt());
    }
  }

  lemma StoreIgnoresKey(p: Pool, b: Block)
    ensures Store(p.(policy := "fifo"), b) == Store(p, b).(policy := "fifo")
  {
  }

  lemma AllocatedIgnoresKey(p: Pool, op: Op)
    requires p.policy != "none" && Sorted(p.blocks, CreatedAt()) && Sorted(p.blocks, AccessedAt()) && op.Alloc?
    ensures Apply(p.(policy := "fifo"), op) == Apply(p, op).(policy := "fifo")
    ensures EvictedBy(p.(policy := "fifo"), op) == EvictedBy(p, op)
  {
    if op.size <= p.total {
      var base, f := Released(p, op.id), Released(p.(policy := "fifo"), op.id);
      ReleasedIgnoresKey(p, op.id);
      MakeRoomIgnoresKey(base, op.size);
      var r, rf := MakeRoom(base, op.size), MakeRoom(f, op.size);
      assert rf == Room(r.pool.(policy := "fifo"), r.evicted, r.ok);
      StoreIgnoresKey(r.pool, Block(op.id, op.session, op.tokens, op.size, op.t0, op.t1));
    }
  }

  lemma ApplyIgnoresKey(p: Pool, op: Op)
    requires p.policy != "none" && Sorted(p.blocks, CreatedAt()) && Sorted(p.blocks, AccessedAt())
    ensures Apply(p.(policy := "fifo"), op) == Apply(p, op).(policy := "fifo")
    ensures EvictedBy(p.(policy := "fifo"), op) == EvictedBy(p, op)
  {
    match op {
      case Alloc(_, _, _, _, _, _) => AllocatedIgnoresKey(p, op);
      case Access(_, _) =>
      case Free(id) => ReleasedIgnoresKey(p, id);
    }
  }

  /** On touch-free runs an evicting pool is a FIFO pool: same contents, same counters,
      and the same victims at the next call. */
  lemma {:induction false} TouchFreeLruIsFifo(total: real, policy: string, ops: seq<Op>, next: Op)
    requires total >= 0.0 && policy != "none" && AllLegal(ops) && SteadyClock(ops) && TouchFree(ops)
    ensures Run(Fresh(total, "fifo"), ops) == Run(Fresh(total, policy), ops).(policy := "fifo")
    ensures EvictedBy(Run(Fresh(total, "fifo"), ops), next) == EvictedBy(Run(Fresh(total, policy), ops), next)
  {
    InsertionOrder(total, policy, ops);
    RunKeeps(Fresh(total, policy), ops);
    if |ops| > 0 {
      var before := ops[..|ops| - 1];
      SteadyClockPrefix(ops);
      TouchFreeLruIsFifo(total, policy, before, next);
      InsertionOrder(total, policy, before);
      RunKeeps(Fresh(total, policy), before);
      ApplyIgnoresKey(Run(Fresh(total, policy), before), ops[|ops| - 1]);
    }
    ApplyIgnoresKey(Run(Fresh(total, policy), ops), next);
  }
}
