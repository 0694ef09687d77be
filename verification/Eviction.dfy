/** What one `allocate` does, without the loop: the evicted blocks are the shortest
    prefix of the policy order that makes room, and everything else stays as it was. */
module Eviction {
  import opened Ordering
  import opened MemorySim

  function BlockIds(bs: seq<Block>): seq<string> {
    if |bs| == 0 then [] else [bs[0].id] + BlockIds(bs[1..])
  }

  /** The blocks whose ids are not listed, in dict order. */
  function Without(bs: seq<Block>, ids: seq<string>): seq<Block> {
    if |bs| == 0 then []
    else (if bs[0].id in ids then [] else [bs[0]]) + Without(bs[1..], ids)
  }

  /** k is the least number of leading victims whose removal makes room. */
  ghost predicate IsLeastRoom(order: seq<Block>, used: real, size: real, total: real, k: nat) {
    && k <= |order|
    && used - Sum(order[..k]) + size <= total
    && forall j :: 0 <= j < k ==> used - Sum(order[..j]) + size > total
  }

  lemma {:induction false} WithoutAbsent(bs: seq<Block>, id: string, ids: seq<string>)
    requires forall b :: b in bs ==> b.id != id
    ensures Without(bs, [id] + ids) == Without(bs, ids)
  {
    if |bs| == 0 {
    } else {
      assert bs[0] in bs;
      WithoutAbsent(bs[1..], id, ids);
    }
  }

  lemma {:induction false} WithoutNothing(bs: seq<Block>)
    ensures Without(bs, []) == bs
  {
    if |bs| == 0 {
    } else {
      WithoutNothing(bs[1..]);
    }
  }

  lemma {:induction false} WithoutRemoveAt(bs: seq<Block>, i: nat, ids: seq<string>)
    requires Distinct(bs) && i < |bs|
    ensures Without(bs, [bs[i].id] + ids) == Without(RemoveAt(bs, i), ids)
  {
    if i == 0 {
      assert RemoveAt(bs, 0) == bs[1..];
      WithoutAbsent(bs[1..], bs[0].id, ids);
    } else {
      var cs := RemoveAt(bs, i);
      assert cs[0] == bs[0] && cs[1..] == RemoveAt(bs[1..], i - 1);
      WithoutRemoveAt(bs[1..], i - 1, ids);
    }
  }

  lemma ReleasedIsWithout(p: Pool, id: string)
    requires Accounted(p)
    ensures Released(p, id).blocks == Without(p.blocks, [id])
  {
    HasMember(p.blocks, id);
    WithoutNothing(Released(p, id).blocks);
    if Has(p.blocks, id) {
      WithoutRemoveAt(p.blocks, Find(p.blocks, id), []);
      assert [id] + [] == [id];
    } else {
      WithoutAbsent(p.blocks, id, []);
      assert [id] + [] == [id];
    }
  }

  lemma LeastRoomShift(order: seq<Block>, used: real, size: real, total: real, k: nat)
    requires |order| > 0 && used + size > total
    requires IsLeastRoom(order[1..], used - order[0].size, size, total, k)
    ensures IsLeastRoom(order, used, size, total, k + 1)
    ensures BlockIds(order[..k + 1]) == [order[0].id] + BlockIds(order[1..][..k])
  {
    assert order[..k + 1][1..] == order[1..][..k];
    forall j | 0 <= j < k + 1 ensures used - Sum(order[..j]) + size > total {
      if j > 0 {
        assert order[..j][1..] == order[1..][..j - 1];
      }
    }
  }

  /** The evicted ids are the shortest prefix of the policy order that makes room; all else survives. */
  ghost predicate IsShortestPrefix(p: Pool, size: real, r: Room) {
    var order, k := Sort(p.blocks, Key(p.policy)), |r.evicted|;
    && r.ok && IsLeastRoom(order, p.used, size, p.total, k)
    && r.evicted == BlockIds(order[..k])
    && r.pool.blocks == Without(p.blocks, r.evicted)
  }

  lemma NoneNeeded(p: Pool, size: real)
    requires p.used + size <= p.total
    ensures IsShortestPrefix(p, size, Room(p, [], true))
  {
    WithoutNothing(p.blocks);
    assert Sort(p.blocks, Key(p.policy))[..0] == [];
  }

  /** One victim more. */
  lemma PrefixGrows(p: Pool, size: real, m: nat, r: Room)
    requires Accounted(p) && |p.blocks| > 0 && m == MinIndex(p.blocks, Key(p.policy)) && p.used + size > p.total
    requires IsShortestPrefix(EvictAt(p, m), size, r)
    ensures IsShortestPrefix(p, size, Room(r.pool, [p.blocks[m].id] + r.evicted, r.ok))
  {
    var order, rest := Sort(p.blocks, Key(p.policy)), Sort(EvictAt(p, m).blocks, Key(p.policy));
    assert order == [p.blocks[m]] + rest && order[1..] == rest;
    WithoutRemoveAt(p.blocks, m, r.evicted);
    LeastRoomShift(order, p.used, size, p.total, |r.evicted|);
  }

  lemma {:induction false} MakeRoomIsShortestPrefix(p: Pool, size: real)
    requires Accounted(p) && p.policy != "none" && size <= p.total
    ensures IsShortestPrefix(p, size, MakeRoom(p, size))
    decreases |p.blocks|
  {
    if p.used + size <= p.total {
      NoneNeeded(p, size);
    } else {
      var m := MinIndex(p.blocks, Key(p.policy));
      var q := EvictAt(p, m);
      assert Accounted(q) by {
        DropKeeps(p, m);
      }
      var r := MakeRoom(q, size);
      assert MakeRoom(p, size) == Room(r.pool, [p.blocks[m].id] + r.evicted, r.ok);
      assert IsShortestPrefix(q, size, r) by {
        MakeRoomIsShortestPrefix(q, size);
      }
      PrefixGrows(p, size, m, r);
    }
  }

  /** The footprint left once the old block of this id, if any, is taken off. */
  function BaseUse(p: Pool, id: string): real {
    if Has(p.blocks, id) then p.used - p.blocks[Find(p.blocks, id)].size else p.used
  }

  /** Exactly when OutOfMemoryError is raised, and what a failing call has already done. */
  lemma OutOfMemoryIff(p: Pool, id: string, session: string, tokens: int, size: real, t0: real, t1: real)
    requires Accounted(p)
    ensures var (q, outcome) := Allocated(p, id, session, tokens, size, t0, t1);
      && (outcome.OutOfMemory? <==> size > p.total || (p.policy == "none" && BaseUse(p, id) + size > p.total))
      && (outcome.OutOfMemory? ==> q.ooms == p.ooms + 1 && q.allocations == p.allocations && q.evictions == p.evictions)
      && (outcome.OutOfMemory? ==> q.blocks == if size > p.total then p.blocks else Without(p.blocks, [id]))
  {
    if size <= p.total {
      ReleaseKeeps(p, id);
      ReleasedIsWithout(p, id);
      if p.policy != "none" {
        MakeRoomIsShortestPrefix(Released(p, id), size);
      }
    }
  }

  /** A successful call: least eviction in policy order, survivors untouched, newcomer last. */
  lemma AllocateIsExact(p: Pool, id: string, session: string, tokens: int, size: real, t0: real, t1: real)
    requires Accounted(p)
    requires Allocated(p, id, session, tokens, size, t0, t1).1.Placed?
    ensures var (q, outcome) := Allocated(p, id, session, tokens, size, t0, t1);
      var base := Without(p.blocks, [id]);
      var order := Sort(base, Key(p.policy));
      && IsLeastRoom(order, BaseUse(p, id), size, p.total, |outcome.evicted|)
      && outcome.evicted == BlockIds(order[..|outcome.evicted|])
      && (p.policy == "none" ==> outcome.evicted == [])
      && q.blocks == Without(base, outcome.evicted) + [Block(id, session, tokens, size, t0, t1)]
      && q.used == Sum(q.blocks) <= p.total
      && q.allocations == p.allocations + 1 && q.evictions == p.evictions + |outcome.evicted| && q.ooms == p.ooms
  {
    AllocateKeeps(p, id, session, tokens, size, t0, t1);
    ReleaseKeeps(p, id);
    ReleasedIsWithout(p, id);
    MakeRoomKeeps(Released(p, id), size);
    WithoutNothing(Released(p, id).blocks);
    if p.policy != "none" {
      MakeRoomIsShortestPrefix(Released(p, id), size);
    }
  }

  /** A failing call leaves the pool's contents alone exactly when it fails the size check or has no
      old block of that id to drop. */
  lemma FailureKeepsBlocksIff(p: Pool, id: string, session: string, tokens: int, size: real, t0: real, t1: real)
    requires Accounted(p) && Allocated(p, id, session, tokens, size, t0, t1).1.OutOfMemory?
    ensures Allocated(p, id, session, tokens, size, t0, t1).0.blocks == p.blocks <==>
      size > p.total || !Has(p.blocks, id)
  {
    OutOfMemoryIff(p, id, session, tokens, size, t0, t1);
    ReleasedIsWithout(p, id);
    ReleaseKeeps(p, id);
    HasMember(p.blocks, id);
    HasMember(Released(p, id).blocks, id);
  }

  /** Asking for 60 MB in place of the 40 MB it has, beside 50 MB of others in a pool of 100 MB
      that never evicts, a cache loses the 40 MB too. */
  lemma ReallocationLosesBlock(p: Pool, a: Block, b: Block, t0: real, t1: real)
    requires p.policy == "none" && p.total == 100.0 && p.blocks == [a, b] && p.used == 90.0
    requires a.id == "a" && a.size == 40.0 && b.id == "b" && b.size == 50.0
    ensures Accounted(p)
    ensures var (q, outcome) := Allocated(p, "a", a.session, a.tokens, 60.0, t0, t1);
      outcome.OutOfMemory? && q.blocks == [b] && q.used == 50.0
  {
    assert p.blocks[1..] == [b] && Sum([b]) == 50.0;
    assert Find(p.blocks, "a") == 0;
    assert RemoveAt(p.blocks, 0) == [b];
  }
}
