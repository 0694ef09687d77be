/** LRU cache theory on the real pool: stack inclusion and the working-set guarantee. */
module CacheTheory {
  import opened Ordering
  import opened MemorySim
  import opened PoolRuns
  import History
  import opened Recency

  // --------------------------------------------------------- stack inclusion

  ghost predicate SizesAre(bs: seq<Block>, s: real) {
    forall b :: b in bs ==> b.size == s
  }

  ghost predicate Within(bs: seq<Block>, cs: seq<Block>) {
    forall b :: b in bs ==> b in cs
  }

  /** p is the smaller pool. It holds only blocks that q holds, and if it holds fewer it is full. */
  ghost predicate Included(p: Pool, q: Pool, s: real) {
    && Within(p.blocks, q.blocks)
    && (p.used + s > p.total || (Within(q.blocks, p.blocks) && p.used == q.used))
  }

  ghost predicate LruPool(p: Pool, s: real) {
    WellFormed(p) && IsLru(p.policy) && History.DistinctTimes(p.blocks) && SizesAre(p.blocks, s)
  }

  lemma SumAtLeastOne(bs: seq<Block>, s: real)
    requires SizesNonNegative(bs) && SizesAre(bs, s) && |bs| > 0
    ensures Sum(bs) >= s
  {
    SumNonNegative(bs[1..]);
    assert bs[0] in bs;
  }

  /** With equal sizes at most one block has to go. */
  lemma OneVictim(p: Pool, s: real)
    requires LruPool(p, s) && 0.0 <= s <= p.total
    ensures p.used + s > p.total ==> |p.blocks| > 0
    ensures MakeRoom(p, s).pool == if p.used + s <= p.total then p else EvictAt(p, MinIndex(p.blocks, AccessedAt()))
    ensures MakeRoom(p, s).ok
  {
    if p.used + s > p.total {
      var m := MinIndex(p.blocks, AccessedAt());
      assert p.blocks[m] in p.blocks;
      assert MakeRoom(EvictAt(p, m), s) == Room(EvictAt(p, m), [], true);
    }
  }

  lemma ReleasedPool(p: Pool, s: real, id: string)
    requires LruPool(p, s)
    ensures LruPool(Released(p, id), s)
    ensures Released(p, id).used == if Has(p.blocks, id) then p.used - s else p.used
  {
    ReleaseKeeps(p, id);
    ReleasedTimes(p, id);
    if Has(p.blocks, id) {
      assert p.blocks[Find(p.blocks, id)] in p.blocks;
    }
  }

  lemma SameTimeSameBlock(bs: seq<Block>, b: Block, c: Block)
    requires History.DistinctTimes(bs) && b in bs && c in bs && b.accessed == c.accessed
    ensures b == c
  {
    var i :| 0 <= i < |bs| && bs[i] == b;
    var j :| 0 <= j < |bs| && bs[j] == c;
    assert i == j;
  }

  /** If the larger pool has to evict, the smaller one does too. */
  lemma SmallerEvictsFirst(p: Pool, q: Pool, s: real, id: string)
    requires LruPool(p, s) && LruPool(q, s) && p.total <= q.total && Included(p, q, s)
    requires Released(q, id).used + s > q.total
    ensures Released(p, id).used + s > p.total
  {
    ReleasedPool(p, s, id);
    ReleasedPool(q, s, id);
    HasMember(p.blocks, id);
    HasMember(q.blocks, id);
  }

  /** After both have made room the smaller pool's blocks are still among the larger one's. */
  lemma RoomStaysWithin(a: Pool, b: Pool, s: real)
    requires LruPool(a, s) && LruPool(b, s) && 0.0 <= s <= a.total <= b.total && Within(a.blocks, b.blocks)
    requires b.used + s > b.total ==> a.used + s > a.total
    ensures Within(MakeRoom(a, s).pool.blocks, MakeRoom(b, s).pool.blocks)
  {
    OneVictim(a, s);
    OneVictim(b, s);
    if a.used + s > a.total {
      DropKeeps(a, MinIndex(a.blocks, AccessedAt()));
      if b.used + s > b.total {
        LosersAgree(a, b);
      }
    }
  }

  lemma WithinReleased(p: Pool, q: Pool, id: string)
    requires WellFormed(p) && WellFormed(q) && Within(p.blocks, q.blocks)
    ensures Within(Released(p, id).blocks, Released(q, id).blocks)
  {
    ReleaseKeeps(p, id);
    ReleaseKeeps(q, id);
  }

  lemma WithinStored(cs: seq<Block>, bs: seq<Block>, c: Block)
    requires Within(cs, bs)
    ensures Within(cs + [c], bs + [c])
  {
  }

  /** What the totals of an allocation are; with equal sizes it evicts at most once. */
  lemma AllocUsed(p: Pool, s: real, op: Op)
    requires LruPool(p, s) && op.Alloc? && op.size == s && 0.0 <= s <= p.total
    ensures var a, r := Released(p, op.id), MakeRoom(Released(p, op.id), s);
      && LruPool(a, s) && a.used == (if Has(p.blocks, op.id) then p.used - s else p.used)
      && Apply(p, op) == Store(r.pool, Block(op.id, op.session, op.tokens, s, op.t0, op.t1))
      && Apply(p, op).used == (if a.used + s > a.total then a.used else a.used + s)
      && (a.used + s <= a.total ==> r.pool == a)
  {
    var a := Released(p, op.id);
    ReleasedPool(p, s, op.id);
    OneVictim(a, s);
    if a.used + s > a.total {
      assert a.blocks[MinIndex(a.blocks, AccessedAt())] in a.blocks;
    }
  }

  lemma FullOrEqual(p: Pool, q: Pool, s: real, op: Op)
    requires LruPool(p, s) && LruPool(q, s) && p.total <= q.total && Included(p, q, s)
    requires op.Alloc? && op.size == s && 0.0 <= s <= p.total
    ensures var p', q' := Apply(p, op), Apply(q, op);
      p'.used + s > p'.total || (Within(q'.blocks, p'.blocks) && p'.used == q'.used)
  {
    AllocUsed(p, s, op);
    AllocUsed(q, s, op);
    HasMember(p.blocks, op.id);
    HasMember(q.blocks, op.id);
    if p.used + s <= p.total {
      WithinReleased(q, p, op.id);
    }
  }

  lemma AllocStaysIncluded(p: Pool, q: Pool, s: real, op: Op)
    requires LruPool(p, s) && LruPool(q, s) && p.total <= q.total && Included(p, q, s)
    requires op.Alloc? && op.size == s >= 0.0
    ensures Included(Apply(p, op), Apply(q, op), s)
  {
    if s > p.total {
      SumNonNegative(p.blocks);
      if |p.blocks| > 0 {
        SumAtLeastOne(p.blocks, s);
      }
    } else {
      var a, b := Released(p, op.id), Released(q, op.id);
      AllocUsed(p, s, op);
      AllocUsed(q, s, op);
      WithinReleased(p, q, op.id);
      if b.used + s > b.total {
        SmallerEvictsFirst(p, q, s, op.id);
      }
      RoomStaysWithin(a, b, s);
      WithinStored(MakeRoom(a, s).pool.blocks, MakeRoom(b, s).pool.blocks, Block(op.id, op.session, op.tokens, s, op.t0, op.t1));
      FullOrEqual(p, q, s, op);
    }
  }

  /** A block that only the larger pool gives up is not one the smaller pool keeps. */
  lemma LosersAgree(a: Pool, b: Pool)
    requires WellFormed(a) && WellFormed(b) && History.DistinctTimes(b.blocks)
    requires |a.blocks| > 0 && |b.blocks| > 0 && Within(a.blocks, b.blocks)
    ensures var i, j := MinIndex(a.blocks, AccessedAt()), MinIndex(b.blocks, AccessedAt());
      Within(Drop(a, i).blocks, Drop(b, j).blocks)
  {
    var i, j := MinIndex(a.blocks, AccessedAt()), MinIndex(b.blocks, AccessedAt());
    DropKeeps(a, i);
    DropKeeps(b, j);
    var x, y := a.blocks[i], b.blocks[j];
    assert x in a.blocks && y in b.blocks;
    if y in a.blocks {
      var k :| 0 <= k < |a.blocks| && a.blocks[k] == y;
      var l :| 0 <= l < |b.blocks| && b.blocks[l] == x;
      assert AccessedAt()(x) <= AccessedAt()(a.blocks[k]) && AccessedAt()(y) <= AccessedAt()(b.blocks[l]);
      SameTimeSameBlock(b.blocks, y, x);
    }
    forall c | c in Drop(a, i).blocks ensures c in Drop(b, j).blocks {
      SameIdSameBlock(b.blocks, c, y);
    }
  }

  lemma SameIdSameBlock(bs: seq<Block>, b: Block, c: Block)
    requires Distinct(bs) && b in bs && c in bs
    ensures b.id == c.id ==> b == c
  {
    var i :| 0 <= i < |bs| && bs[i] == b;
    var j :| 0 <= j < |bs| && bs[j] == c;
    assert b.id == c.id ==> i == j;
  }

  lemma TouchStaysIncluded(p: Pool, q: Pool, s: real, op: Op)
    requires WellFormed(p) && WellFormed(q) && Included(p, q, s) && op.Access?
    ensures Included(Apply(p, op), Apply(q, op), s)
  {
    TouchedWithin(p, q, op.id, op.t);
    if Within(q.blocks, p.blocks) {
      TouchedWithin(q, p, op.id, op.t);
    }
  }

  lemma TouchedWithin(p: Pool, q: Pool, id: string, t: real)
    requires WellFormed(p) && WellFormed(q) && Within(p.blocks, q.blocks)
    ensures Within(Touched(p, id, t).blocks, Touched(q, id, t).blocks)
  {
    HasMember(p.blocks, id);
    HasMember(q.blocks, id);
    if Has(q.blocks, id) {
      ReleaseKeeps(p, id);
      ReleaseKeeps(q, id);
      var y := q.blocks[Find(q.blocks, id)];
      assert y in q.blocks;
      forall c | c in Touched(p, id, t).blocks ensures c in Touched(q, id, t).blocks {
        TouchedMembers(q, id, t, c);
        if Has(p.blocks, id) {
          var x := p.blocks[Find(p.blocks, id)];
          assert x in p.blocks;
          SameIdSameBlock(q.blocks, x, y);
          TouchedMembers(p, id, t, c);
        }
      }
    }
  }

  /** Allocations of one size s, and touches; no frees. */
  ghost predicate Uniform(ops: seq<Op>, s: real) {
    forall i :: 0 <= i < |ops| ==> !ops[i].Free? && (ops[i].Alloc? ==> ops[i].size == s)
  }

  lemma RunPool(total: real, policy: string, ops: seq<Op>, s: real)
    requires total >= 0.0 && IsLru(policy) && s >= 0.0 && Uniform(ops, s) && History.StrictClock(ops)
    ensures LruPool(Run(Fresh(total, policy), ops), s) && AllLegal(ops)
    ensures Run(Fresh(total, policy), ops).total == total
  {
    var p := Run(Fresh(total, policy), ops);
    RunKeeps(Fresh(total, policy), ops);
    History.StrictTimes(total, policy, ops);
    forall b | b in p.blocks ensures b.size == s {
      History.Provenance(total, policy, ops, b);
    }
  }

  lemma {:induction false} RunsStayIncluded(small: real, large: real, policy: string, policy': string, ops: seq<Op>, s: real)
    requires 0.0 <= small <= large && IsLru(policy) && IsLru(policy')
    requires s >= 0.0 && Uniform(ops, s) && History.StrictClock(ops)
    ensures Included(Run(Fresh(small, policy), ops), Run(Fresh(large, policy'), ops), s)
  {
    if |ops| == 0 {
    } else {
      var before, op := ops[..|ops| - 1], ops[|ops| - 1];
      StrictClockPrefix(ops);
      RunsStayIncluded(small, large, policy, policy', before, s);
      RunPool(small, policy, before, s);
      RunPool(large, policy', before, s);
      var p, q := Run(Fresh(small, policy), before), Run(Fresh(large, policy'), before);
      if op.Alloc? {
        AllocStaysIncluded(p, q, s, op);
      } else {
        TouchStaysIncluded(p, q, s, op);
      }
    }
  }

  function Only(l: seq<Block>, bs: seq<Block>): seq<Block> {
    if |l| == 0 then [] else (if l[0] in bs then [l[0]] else []) + Only(l[1..], bs)
  }

  lemma {:induction false} OnlyMembers(l: seq<Block>, bs: seq<Block>)
    requires StrictlySorted(l)
    ensures StrictlySorted(Only(l, bs))
    ensures forall b :: b in Only(l, bs) <==> b in l && b in bs
  {
    if |l| == 0 {
    } else {
      OnlyMembers(l[1..], bs);
      var rest := Only(l[1..], bs);
      forall j | 0 <= j < |rest| ensures l[0].accessed < rest[j].accessed {
        assert rest[j] in l[1..];
      }
      assert forall b :: b in l <==> b == l[0] || b in l[1..];
    }
  }

  /** After every call the smaller pool's recency order is the larger one's, with blocks left out. */
  lemma StackInclusion(small: real, large: real, policy: string, policy': string, ops: seq<Op>, s: real)
    requires 0.0 <= small <= large && IsLru(policy) && IsLru(policy')
    requires s >= 0.0 && Uniform(ops, s) && History.StrictClock(ops)
    ensures var p, q := Run(Fresh(small, policy), ops), Run(Fresh(large, policy'), ops);
      && Within(p.blocks, q.blocks)
      && Sort(p.blocks, AccessedAt()) == Only(Sort(q.blocks, AccessedAt()), p.blocks)
  {
    var p, q := Run(Fresh(small, policy), ops), Run(Fresh(large, policy'), ops);
    RunsStayIncluded(small, large, policy, policy', ops, s);
    RunPool(small, policy, ops, s);
    RunPool(large, policy', ops, s);
    SortStrict(q.blocks);
    SortMembers(q.blocks);
    OnlyMembers(Sort(q.blocks, AccessedAt()), p.blocks);
    SortIs(p.blocks, Only(Sort(q.blocks, AccessedAt()), p.blocks));
  }
}
