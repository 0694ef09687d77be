/** Under LRU a block is evicted exactly when what is in the pool and newer leaves no room for it
    beside the newcomer, whatever the block sizes. */
module WorkingSet {
  import opened Ordering
  import opened MemorySim
  import Eviction
  import opened PoolRuns
  import opened History
  import opened Recency
  import CacheTheory

  // ---------------------------------------------------- one eviction, on blocks

  /** The blocks accessed at t or later. */
  function NoOlder(bs: seq<Block>, t: real): seq<Block> {
    if |bs| == 0 then [] else (if bs[0].accessed >= t then [bs[0]] else []) + NoOlder(bs[1..], t)
  }

  lemma {:induction false} NoOlderMembers(bs: seq<Block>, t: real)
    ensures forall b :: b in NoOlder(bs, t) <==> b in bs && b.accessed >= t
  {
    if |bs| == 0 {
    } else {
      NoOlderMembers(bs[1..], t);
      assert forall b :: b in bs <==> b == bs[0] || b in bs[1..];
    }
  }

  lemma {:induction false} NoOlderDistinct(bs: seq<Block>, t: real)
    requires Distinct(bs)
    ensures Distinct(NoOlder(bs, t))
  {
    if |bs| == 0 {
    } else {
      NoOlderDistinct(bs[1..], t);
      NoOlderMembers(bs[1..], t);
      var rest := NoOlder(bs[1..], t);
      forall j | 0 <= j < |rest| ensures rest[j].id != bs[0].id {
        assert rest[j] in bs[1..];
      }
    }
  }

  lemma {:induction false} NoOlderAll(bs: seq<Block>, t: real)
    requires forall b :: b in bs ==> b.accessed >= t
    ensures NoOlder(bs, t) == bs
  {
    if |bs| == 0 {
    } else {
      assert bs[0] in bs;
      NoOlderAll(bs[1..], t);
    }
  }

  lemma {:induction false} NoOlderAppend(bs: seq<Block>, cs: seq<Block>, t: real)
    ensures NoOlder(bs + cs, t) == NoOlder(bs, t) + NoOlder(cs, t)
  {
    if |bs| == 0 {
      assert bs + cs == cs;
    } else {
      assert (bs + cs)[1..] == bs[1..] + cs;
      NoOlderAppend(bs[1..], cs, t);
    }
  }

  lemma NoOlderRemove(bs: seq<Block>, i: nat, t: real)
    requires i < |bs| && bs[i].size >= 0.0
    ensures Sum(NoOlder(RemoveAt(bs, i), t)) <= Sum(NoOlder(bs, t))
  {
    var a, b, c := bs[..i], [bs[i]], bs[i + 1..];
    assert bs == a + (b + c);
    NoOlderAppend(a, b + c, t);
    NoOlderAppend(b, c, t);
    NoOlderAppend(a, c, t);
    SumAppend(NoOlder(a, t), NoOlder(b + c, t));
    SumAppend(NoOlder(b, t), NoOlder(c, t));
    SumAppend(NoOlder(a, t), NoOlder(c, t));
    assert Sum(NoOlder(b, t)) >= 0.0;
  }

  /** The victim is older than everything it leaves. */
  lemma VictimIsOlder(p: Pool, c: Block)
    requires WellFormed(p) && DistinctTimes(p.blocks) && IsLru(p.policy) && |p.blocks| > 0 && c in p.blocks
    ensures var b := p.blocks[Victim(p).value];
      c.accessed >= b.accessed && (c.id != b.id ==> c.accessed > b.accessed)
  {
    var v := Victim(p).value;
    var k :| 0 <= k < |p.blocks| && p.blocks[k] == c;
    assert AccessedAt()(p.blocks[v]) <= AccessedAt()(p.blocks[k]);
  }

  lemma VictimMeansOverflow(p: Pool, size: real)
    requires WellFormed(p) && DistinctTimes(p.blocks) && IsLru(p.policy) && |p.blocks| > 0
    requires p.used + size > p.total
    ensures var b := p.blocks[Victim(p).value];
      && Sum(NoOlder(p.blocks, b.accessed)) + size > p.total
      && forall c :: c in EvictAt(p, Victim(p).value).blocks ==> c.accessed > b.accessed
  {
    var v := Victim(p).value;
    forall c | c in p.blocks ensures c.accessed >= p.blocks[v].accessed {
      VictimIsOlder(p, c);
    }
    NoOlderAll(p.blocks, p.blocks[v].accessed);
    forall c | c in EvictAt(p, v).blocks ensures c.accessed > p.blocks[v].accessed {
      DropKeeps(p, v);
      VictimIsOlder(p, c);
    }
  }

  /** b goes only when b, everything newer, and the newcomer overflow the pool;
      and then everything left is newer than b. */
  lemma {:induction false} EvictedMeansOverflow(p: Pool, size: real, b: Block)
    requires WellFormed(p) && DistinctTimes(p.blocks) && IsLru(p.policy)
    requires b in p.blocks && b !in MakeRoom(p, size).pool.blocks
    ensures Sum(NoOlder(p.blocks, b.accessed)) + size > p.total
    ensures forall c :: c in MakeRoom(p, size).pool.blocks ==> c.accessed > b.accessed
    decreases |p.blocks|
  {
    var v := Victim(p).value;
    var q := EvictAt(p, v);
    DropKeeps(p, v);
    if p.blocks[v] == b {
      VictimMeansOverflow(p, size);
      MakeRoomKeeps(q, size);
    } else {
      CacheTheory.SameIdSameBlock(p.blocks, b, p.blocks[v]);
      ReleasedTimesAt(p.blocks, v);
      EvictedMeansOverflow(q, size, b);
      NoOlderRemove(p.blocks, v, b.accessed);
    }
  }

  lemma ReleasedTimesAt(bs: seq<Block>, i: nat)
    requires DistinctTimes(bs) && i < |bs|
    ensures DistinctTimes(RemoveAt(bs, i))
  {
    var cs := RemoveAt(bs, i);
    assert forall k :: 0 <= k < |cs| ==> cs[k] == bs[if k < i then k else k + 1];
  }

  lemma {:induction false} SumSubset(xs: seq<Block>, bs: seq<Block>)
    requires Distinct(xs) && SizesNonNegative(bs) && forall a :: a in xs ==> a in bs
    ensures Sum(xs) <= Sum(bs)
  {
    if |xs| == 0 {
      SumNonNegative(bs);
    } else {
      assert xs[0] in bs;
      var i :| 0 <= i < |bs| && bs[i] == xs[0];
      var rest := RemoveAt(bs, i);
      SumRemoveAt(bs, i);
      assert forall k :: 0 <= k < |rest| ==> rest[k] == bs[if k < i then k else k + 1];
      forall a | a in xs[1..] ensures a in rest {
        var m :| 0 <= m < |xs[1..]| && xs[1..][m] == a;
        assert xs[m + 1] in xs && a.id != bs[i].id;
        var k :| 0 <= k < |bs| && bs[k] == a;
        assert rest[if k < i then k else k - 1] == a;
      }
      SumSubset(xs[1..], rest);
    }
  }

  /** Whoever is as new as a survivor survives. */
  lemma NewerSurvives(p: Pool, size: real, b: Block, c: Block)
    requires WellFormed(p) && DistinctTimes(p.blocks) && IsLru(p.policy)
    requires b in MakeRoom(p, size).pool.blocks && c in NoOlder(p.blocks, b.accessed)
    ensures c in MakeRoom(p, size).pool.blocks
  {
    NoOlderMembers(p.blocks, b.accessed);
    if c !in MakeRoom(p, size).pool.blocks {
      EvictedMeansOverflow(p, size, c);
    }
  }

  /** The exact condition for staying in the pool. */
  lemma SurvivesIff(p: Pool, size: real, b: Block)
    requires WellFormed(p) && DistinctTimes(p.blocks) && IsLru(p.policy) && b in p.blocks && size <= p.total
    ensures b in MakeRoom(p, size).pool.blocks <==> Sum(NoOlder(p.blocks, b.accessed)) + size <= p.total
  {
    var q := MakeRoom(p, size).pool;
    MakeRoomKeeps(p, size);
    Eviction.MakeRoomIsShortestPrefix(p, size);
    if b in q.blocks {
      forall c | c in NoOlder(p.blocks, b.accessed) ensures c in q.blocks {
        NewerSurvives(p, size, b, c);
      }
      NoOlderDistinct(p.blocks, b.accessed);
      SumSubset(NoOlder(p.blocks, b.accessed), q.blocks);
    } else {
      EvictedMeansOverflow(p, size, b);
    }
  }

  /** The footprint of id's block and of all blocks in the pool that are newer, `skip`'s aside. */
  function Beside(p: Pool, id: string, skip: string): real {
    if Has(p.blocks, id) then Sum(NoOlder(Released(p, skip).blocks, p.blocks[Find(p.blocks, id)].accessed)) else 0.0
  }

  lemma BesideIs(p: Pool, b: Block, skip: string)
    requires Distinct(p.blocks) && b in p.blocks
    ensures Beside(p, b.id, skip) == Sum(NoOlder(Released(p, skip).blocks, b.accessed))
  {
    var i :| 0 <= i < |p.blocks| && p.blocks[i] == b;
    FindAt(p.blocks, i);
  }

  // ------------------------------------------------- the working set, on calls

  /** The ids that the calls use, each once. */
  function Recent(total: real, ops: seq<Op>): seq<string> {
    var n := |ops| - 1;
    if n < 0 then []
    else
      var r := Recent(total, ops[..n]);
      if Uses(total, ops[n], ops[n].id) && ops[n].id !in r then r + [ops[n].id] else r
  }

  function AllocSize(total: real, ops: seq<Op>, id: string): real {
    match LastAlloc(total, ops, id)
    case None => 0.0
    case Some(k) => ops[k].size
  }

  function Footprint(total: real, ops: seq<Op>, ids: seq<string>, skip: string): real {
    if |ids| == 0 then 0.0
    else (if ids[0] == skip then 0.0 else AllocSize(total, ops, ids[0])) + Footprint(total, ops, ids[1..], skip)
  }

  /** What the calls alone tell: the footprint of id and of everything used since id was last used,
      in the pool still or not, `skip` aside. */
  function WorkingSetSize(total: real, ops: seq<Op>, id: string, skip: string): real {
    match LastUse(total, ops, id)
    case None => 0.0
    case Some(u) => Footprint(total, ops, Recent(total, ops[u..]), skip)
  }

  lemma ClockOrder(ops: seq<Op>, u: nat, w: nat)
    requires StrictClock(ops) && u < |ops| && w < |ops| && !ops[u].Free? && !ops[w].Free?
    ensures End(ops[u]) <= End(ops[w]) ==> u <= w
    ensures End(ops[u]) < End(ops[w]) ==> u < w
  {
    if w < u {
      assert End(ops[w]) < Start(ops[u]);
    }
  }

  lemma {:induction false} RecentHolds(total: real, ops: seq<Op>, j: nat)
    requires j < |ops| && Uses(total, ops[j], ops[j].id)
    ensures ops[j].id in Recent(total, ops)
  {
    var n := |ops| - 1;
    if j < n {
      assert ops[..n][j] == ops[j];
      RecentHolds(total, ops[..n], j);
    }
  }

  lemma {:induction false} FootprintNonNegative(total: real, ops: seq<Op>, ids: seq<string>, skip: string)
    requires AllLegal(ops)
    ensures Footprint(total, ops, ids, skip) >= 0.0
  {
    if |ids| == 0 {
    } else {
      FootprintNonNegative(total, ops, ids[1..], skip);
    }
  }

  lemma {:induction false} FootprintSplit(total: real, ops: seq<Op>, ids: seq<string>, skip: string, i: nat)
    requires i < |ids| && ids[i] != skip
    ensures Footprint(total, ops, ids, skip)
         == AllocSize(total, ops, ids[i]) + Footprint(total, ops, RemoveAt(ids, i), skip)
  {
    if i == 0 {
      assert RemoveAt(ids, 0) == ids[1..];
    } else {
      var rest := RemoveAt(ids, i);
      assert rest[0] == ids[0] && rest[1..] == RemoveAt(ids[1..], i - 1);
      FootprintSplit(total, ops, ids[1..], skip, i - 1);
    }
  }

  /** Blocks with distinct ids among `ids` weigh no more than `ids` do. */
  lemma {:induction false} BlocksWithinFootprint(total: real, ops: seq<Op>, bs: seq<Block>, ids: seq<string>, skip: string)
    requires AllLegal(ops) && Distinct(bs)
    requires forall b :: b in bs ==> b.id in ids && b.id != skip && b.size == AllocSize(total, ops, b.id)
    ensures Sum(bs) <= Footprint(total, ops, ids, skip)
    decreases |bs|
  {
    if |bs| == 0 {
      FootprintNonNegative(total, ops, ids, skip);
    } else {
      assert bs[0] in bs;
      var i :| 0 <= i < |ids| && ids[i] == bs[0].id;
      FootprintSplit(total, ops, ids, skip, i);
      var rest := RemoveAt(ids, i);
      forall b | b in bs[1..] ensures b.id in rest {
        assert b in bs;
        var k :| 0 <= k < |ids| && ids[k] == b.id;
        var m :| 0 <= m < |bs[1..]| && bs[1..][m] == b;
        assert bs[m + 1].id != bs[0].id;
        assert rest[if k < i then k else k - 1] == b.id;
      }
      BlocksWithinFootprint(total, ops, bs[1..], rest, skip);
    }
  }

  /** One allocation: exactly those blocks go that have no room beside the newcomer and what is newer. */
  lemma EvictedIff(total: real, policy: string, ops: seq<Op>, op: Op, b: Block)
    requires total >= 0.0 && IsLru(policy) && AllLegal(ops) && StrictClock(ops) && Legal(op) && op.Alloc?
    requires b in Run(Fresh(total, policy), ops).blocks && b.id != op.id
    ensures b !in Apply(Run(Fresh(total, policy), ops), op).blocks <==>
      Effective(total, op) && Beside(Run(Fresh(total, policy), ops), b.id, op.id) + op.size > total
  {
    var p := Run(Fresh(total, policy), ops);
    RunKeeps(Fresh(total, policy), ops);
    StrictTimes(total, policy, ops);
    BesideIs(p, b, op.id);
    if op.size <= total {
      var q := Released(p, op.id);
      ReleaseKeeps(p, op.id);
      ReleasedTimes(p, op.id);
      SurvivesIff(q, op.size, b);
      MakeRoomRefines(q, op.size);
    }
  }

  lemma NewerBlockIsRecent(total: real, policy: string, ops: seq<Op>, b: Block, c: Block)
    requires total >= 0.0 && AllLegal(ops) && StrictClock(ops)
    requires b in Run(Fresh(total, policy), ops).blocks && c in Run(Fresh(total, policy), ops).blocks
    requires c.accessed >= b.accessed
    ensures LastUse(total, ops, b.id).Some?
    ensures c.id in Recent(total, ops[LastUse(total, ops, b.id).value..]) && c.size == AllocSize(total, ops, c.id)
  {
    Provenance(total, policy, ops, b);
    Provenance(total, policy, ops, c);
    var u, w := LastUse(total, ops, b.id).value, LastUse(total, ops, c.id).value;
    ClockOrder(ops, u, w);
    assert ops[u..][w - u] == ops[w];
    RecentHolds(total, ops[u..], w - u);
  }

  lemma NewerIsRecent(total: real, policy: string, ops: seq<Op>, skip: string, b: Block)
    requires total >= 0.0 && AllLegal(ops) && StrictClock(ops) && b.id != skip
    requires b in Run(Fresh(total, policy), ops).blocks
    ensures Sum(NoOlder(Released(Run(Fresh(total, policy), ops), skip).blocks, b.accessed))
         <= WorkingSetSize(total, ops, b.id, skip)
  {
    var p := Run(Fresh(total, policy), ops);
    var bs := Released(p, skip).blocks;
    var newer := NoOlder(bs, b.accessed);
    RunKeeps(Fresh(total, policy), ops);
    NoOlderDistinct(bs, b.accessed) by { ReleaseKeeps(p, skip); }
    NewerBlockIsRecent(total, policy, ops, b, b);
    var ids := Recent(total, ops[LastUse(total, ops, b.id).value..]);
    forall c | c in newer
      ensures c.id in ids && c.id != skip && c.size == AllocSize(total, ops, c.id)
    {
      ReleaseKeeps(p, skip);
      NoOlderMembers(bs, b.accessed);
      NewerBlockIsRecent(total, policy, ops, b, c);
    }
    BlocksWithinFootprint(total, ops, newer, ids, skip);
  }

  /** id is allocated at k and not freed afterwards. */
  ghost predicate AllocatedAt(total: real, ops: seq<Op>, id: string, k: nat) {
    && k < |ops| && Effective(total, ops[k]) && ops[k].id == id
    && forall j :: k < j < |ops| ==> !(ops[j].Free? && ops[j].id == id)
  }

  predicate IsNewcomer(total: real, op: Op, id: string) {
    Effective(total, op) && op.id != id
  }

  /** The pool after the first j calls. */
  function PoolAt(total: real, policy: string, ops: seq<Op>, j: nat): Pool
    requires j <= |ops|
  {
    Run(Fresh(total, policy), ops[..j])
  }

  /** From k on, up to n, each newcomer finds room beside id's block and what is newer. */
  ghost predicate WorkingSetFits(total: real, policy: string, ops: seq<Op>, id: string, k: nat, n: nat)
    requires n <= |ops|
  {
    forall j :: k < j < n && IsNewcomer(total, ops[j], id) ==>
      Beside(PoolAt(total, policy, ops, j), id, ops[j].id) + ops[j].size <= total
  }

  ghost predicate Stays(total: real, policy: string, ops: seq<Op>, id: string, k: nat, n: nat)
    requires n <= |ops|
  {
    forall j :: k < j <= n ==> Has(PoolAt(total, policy, ops, j).blocks, id)
  }

  lemma AllocPlaces(p: Pool, op: Op)
    requires WellFormed(p) && IsLru(p.policy) && Legal(op) && Effective(p.total, op)
    ensures Has(Apply(p, op).blocks, op.id)
  {
    ReleaseKeeps(p, op.id);
    MakeRoomRefines(Released(p, op.id), op.size);
    var bs := Apply(p, op).blocks;
    HasMember(bs, op.id);
    assert bs[|bs| - 1] in bs;
  }

  /** One call, other than a free of id: id stays exactly if it finds room. */
  lemma StaysIff(total: real, policy: string, ops: seq<Op>, op: Op, id: string)
    requires total >= 0.0 && IsLru(policy) && AllLegal(ops) && StrictClock(ops) && Legal(op)
    requires Has(Run(Fresh(total, policy), ops).blocks, id) && !(op.Free? && op.id == id)
    ensures Has(Apply(Run(Fresh(total, policy), ops), op).blocks, id) <==>
      (IsNewcomer(total, op, id) ==> Beside(Run(Fresh(total, policy), ops), id, op.id) + op.size <= total)
  {
    var p := Run(Fresh(total, policy), ops);
    RunKeeps(Fresh(total, policy), ops);
    var b := p.blocks[Find(p.blocks, id)];
    assert b in p.blocks;
    match op {
      case Alloc(_, _, _, _, _, _) =>
        if op.id != id {
          EvictedIff(total, policy, ops, op, b);
          NoOtherOf(total, policy, ops, op, b);
        } else if Effective(total, op) {
          AllocPlaces(p, op);
        }
      case Access(x, t) =>
        HasMember(Apply(p, op).blocks, id);
        if Has(p.blocks, x) {
          TouchedMembers(p, x, t, b);
          TouchedMembers(p, x, t, p.blocks[Find(p.blocks, x)].(accessed := t));
          ReleaseKeeps(p, x);
        }
      case Free(x) =>
        HasMember(Apply(p, op).blocks, id);
        ReleaseKeeps(p, x);
    }
  }

  /** After an allocation for another id, id has a block exactly if it is the old one. */
  lemma NoOtherOf(total: real, policy: string, ops: seq<Op>, op: Op, b: Block)
    requires total >= 0.0 && AllLegal(ops) && Legal(op) && op.Alloc? && op.id != b.id
    requires b in Run(Fresh(total, policy), ops).blocks
    ensures Has(Apply(Run(Fresh(total, policy), ops), op).blocks, b.id) <==> b in Apply(Run(Fresh(total, policy), ops), op).blocks
  {
    var p := Run(Fresh(total, policy), ops);
    var bs := Apply(p, op).blocks;
    RunKeeps(Fresh(total, policy), ops);
    HasMember(bs, b.id);
    forall c | c in bs && c.id == b.id ensures c == b {
      ApplyMembers(p, op, c);
      CacheTheory.SameIdSameBlock(p.blocks, b, c);
    }
  }

  lemma PrefixIsRun(ops: seq<Op>, n: nat)
    requires n <= |ops| && AllLegal(ops) && StrictClock(ops)
    ensures AllLegal(ops[..n]) && StrictClock(ops[..n])
  {
    assert forall j :: 0 <= j < n ==> ops[..n][j] == ops[j];
  }

  /** One call further on. */
  lemma NextStaysIff(total: real, policy: string, ops: seq<Op>, id: string, n: nat)
    requires total >= 0.0 && IsLru(policy) && AllLegal(ops) && StrictClock(ops) && n < |ops|
    requires !(ops[n].Free? && ops[n].id == id) && Has(PoolAt(total, policy, ops, n).blocks, id)
    ensures Has(PoolAt(total, policy, ops, n + 1).blocks, id) <==>
      (IsNewcomer(total, ops[n], id) ==> Beside(PoolAt(total, policy, ops, n), id, ops[n].id) + ops[n].size <= total)
  {
    PrefixIsRun(ops, n);
    assert ops[..n + 1][..n] == ops[..n];
    StaysIff(total, policy, ops[..n], ops[n], id);
  }

  lemma FirstPlaced(total: real, policy: string, ops: seq<Op>, k: nat)
    requires total >= 0.0 && IsLru(policy) && AllLegal(ops) && StrictClock(ops) && k < |ops| && Effective(total, ops[k])
    ensures Has(PoolAt(total, policy, ops, k + 1).blocks, ops[k].id)
  {
    PrefixIsRun(ops, k);
    assert ops[..k + 1][..k] == ops[..k];
    RunKeeps(Fresh(total, policy), ops[..k]);
    AllocPlaces(PoolAt(total, policy, ops, k), ops[k]);
  }

  /** Over any run, frees of others included: once allocated and until freed, a block is in the pool
      throughout exactly if its working set always fits. */
  lemma {:induction false} NeverEvictedIff(total: real, policy: string, ops: seq<Op>, id: string, k: nat, n: nat)
    requires total >= 0.0 && IsLru(policy) && AllLegal(ops) && StrictClock(ops) && AllocatedAt(total, ops, id, k)
    requires k < n <= |ops|
    ensures Stays(total, policy, ops, id, k, n) <==> WorkingSetFits(total, policy, ops, id, k, n)
    decreases n
  {
    if n == k + 1 {
      FirstPlaced(total, policy, ops, k);
    } else {
      NeverEvictedIff(total, policy, ops, id, k, n - 1);
      if Stays(total, policy, ops, id, k, n - 1) {
        assert Has(PoolAt(total, policy, ops, n - 1).blocks, id);
        NextStaysIff(total, policy, ops, id, n - 1);
      }
    }
  }

  /** The calls alone are enough to see that it fits: nothing newer in the pool was used before. */
  lemma UsedSinceIsEnough(total: real, policy: string, ops: seq<Op>, id: string, skip: string)
    requires total >= 0.0 && AllLegal(ops) && StrictClock(ops) && id != skip
    ensures Beside(Run(Fresh(total, policy), ops), id, skip) <= WorkingSetSize(total, ops, id, skip)
  {
    var p := Run(Fresh(total, policy), ops);
    if Has(p.blocks, id) {
      var b := p.blocks[Find(p.blocks, id)];
      NewerIsRecent(total, policy, ops, skip, b);
    } else if LastUse(total, ops, id).Some? {
      FootprintNonNegative(total, ops, Recent(total, ops[LastUse(total, ops, id).value..]), skip);
    }
  }

  /** So a working set that fits by the calls alone is never evicted, on any LRU pool of that size. */
  lemma NeverEvicted(total: real, policy: string, ops: seq<Op>, id: string, k: nat)
    requires total >= 0.0 && IsLru(policy) && AllLegal(ops) && StrictClock(ops) && AllocatedAt(total, ops, id, k)
    requires forall j :: k < j < |ops| && IsNewcomer(total, ops[j], id) ==>
      WorkingSetSize(total, ops[..j], id, ops[j].id) + ops[j].size <= total
    ensures Stays(total, policy, ops, id, k, |ops|)
  {
    forall j | k < j < |ops| && IsNewcomer(total, ops[j], id)
      ensures Beside(PoolAt(total, policy, ops, j), id, ops[j].id) + ops[j].size <= total
    {
      PrefixIsRun(ops, j);
      UsedSinceIsEnough(total, policy, ops[..j], id, ops[j].id);
    }
    NeverEvictedIff(total, policy, ops, id, k, |ops|);
  }

  /** What an eviction says about the run: the victim was the least recently used of all
      that remain, and it, what is newer in the pool, and the newcomer exceed the pool. */
  lemma EvictionIsJustified(total: real, policy: string, ops: seq<Op>, op: Op, b: Block, c: Block)
    requires total >= 0.0 && IsLru(policy) && AllLegal(ops) && StrictClock(ops) && Legal(op) && op.Alloc?
    requires var p := Run(Fresh(total, policy), ops);
      && b in p.blocks && b.id != op.id && b !in Apply(p, op).blocks
      && c in p.blocks && c.id != op.id && c in Apply(p, op).blocks
    ensures LastUse(total, ops, b.id).Some? && LastUse(total, ops, c.id).Some?
    ensures LastUse(total, ops, b.id).value < LastUse(total, ops, c.id).value
    ensures Beside(Run(Fresh(total, policy), ops), b.id, op.id) + op.size > total
  {
    var p := Run(Fresh(total, policy), ops);
    RunKeeps(Fresh(total, policy), ops);
    StrictTimes(total, policy, ops);
    Provenance(total, policy, ops, b);
    Provenance(total, policy, ops, c);
    EvictedIff(total, policy, ops, op, b);
    var q := Released(p, op.id);
    ReleaseKeeps(p, op.id);
    ReleasedTimes(p, op.id);
    MakeRoomRefines(q, op.size);
    EvictedMeansOverflow(q, op.size, b);
    ClockOrder(ops, LastUse(total, ops, b.id).value, LastUse(total, ops, c.id).value);
  }
}
