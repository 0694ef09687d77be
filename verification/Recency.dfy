/** The LRU pool, with its timestamps and its scan, refines a move-to-end recency list. */
module Recency {
  import opened Prelude
  import opened Ordering
  import opened MemorySim
  import opened Eviction
  import opened PoolRuns
  import opened History

  // ---------------------------------------------------------- the simple form

  /** What a recency list keeps of a block; the list runs from oldest use to newest. */
  datatype Entry = Entry(id: string, size: real)

  function Weight(l: seq<Entry>): real {
    if |l| == 0 then 0.0 else l[0].size + Weight(l[1..])
  }

  function Forget(l: seq<Entry>, id: string): seq<Entry> {
    if |l| == 0 then [] else (if l[0].id == id then [] else [l[0]]) + Forget(l[1..], id)
  }

  /** How many entries to drop from the old end. */
  function Excess(l: seq<Entry>, size: real, total: real): (k: nat)
    ensures k <= |l|
  {
    if Weight(l) + size <= total || |l| == 0 then 0 else 1 + Excess(l[1..], size, total)
  }

  function Lookup(l: seq<Entry>, id: string): Option<Entry> {
    if |l| == 0 then None else if l[0].id == id then Some(l[0]) else Lookup(l[1..], id)
  }

  function ListApply(total: real, l: seq<Entry>, op: Op): seq<Entry> {
    match op
    case Alloc(id, _, _, size, _, _) =>
      if size > total then l
      else var rest := Forget(l, id); rest[Excess(rest, size, total)..] + [Entry(id, size)]
    case Access(id, _) =>
      (match Lookup(l, id) case None => l case Some(e) => Forget(l, id) + [e])
    case Free(id) => Forget(l, id)
  }

  function ListEvicted(total: real, l: seq<Entry>, op: Op): seq<string> {
    if op.Alloc? && op.size <= total
    then var rest := Forget(l, op.id); EntryIds(rest[..Excess(rest, op.size, total)])
    else []
  }

  function EntryIds(l: seq<Entry>): seq<string> {
    if |l| == 0 then [] else [l[0].id] + EntryIds(l[1..])
  }

  function ListRun(total: real, ops: seq<Op>): seq<Entry> {
    if |ops| == 0 then [] else ListApply(total, ListRun(total, ops[..|ops| - 1]), ops[|ops| - 1])
  }

  // ------------------------------------------------------------- abstraction

  function Entries(bs: seq<Block>): seq<Entry> {
    if |bs| == 0 then [] else [Entry(bs[0].id, bs[0].size)] + Entries(bs[1..])
  }

  function RecencyOf(p: Pool): seq<Entry> {
    Entries(Sort(p.blocks, AccessedAt()))
  }

  ghost predicate StrictlySorted(l: seq<Block>) {
    forall i, j :: 0 <= i < j < |l| ==> l[i].accessed < l[j].accessed
  }

  lemma {:induction false} StrictlySortedUnique(l: seq<Block>, m: seq<Block>)
    requires StrictlySorted(l) && StrictlySorted(m)
    requires forall b :: b in l <==> b in m
    ensures l == m
  {
    assert |m| > 0 ==> m[0] in m;
    assert |l| > 0 ==> l[0] in l;
    if |l| > 0 && |m| > 0 {
      assert l[0] in m;
      assert m[0] in l;
      assert l[0] == m[0];
      forall b ensures b in l[1..] <==> b in m[1..] {
        assert b in l[1..] <==> b in l && b != l[0];
        assert b in m[1..] <==> b in m && b != m[0];
      }
      StrictlySortedUnique(l[1..], m[1..]);
      assert l == [l[0]] + l[1..] && m == [m[0]] + m[1..];
    }
  }

  lemma SortMembers(bs: seq<Block>)
    ensures Sorted(Sort(bs, AccessedAt()), AccessedAt()) && |Sort(bs, AccessedAt())| == |bs|
    ensures forall b :: b in Sort(bs, AccessedAt()) <==> b in bs
  {
    SortIsStable(bs, AccessedAt());
    forall b ensures b in Sort(bs, AccessedAt()) <==> b in bs {
      assert b in multiset(bs) <==> b in multiset(Sort(bs, AccessedAt()));
    }
  }

  lemma SortStrict(bs: seq<Block>)
    requires DistinctTimes(bs)
    ensures StrictlySorted(Sort(bs, AccessedAt()))
  {
    var l := Sort(bs, AccessedAt());
    SortMembers(bs);
    SortIsStable(bs, AccessedAt());
    forall i, j | 0 <= i < j < |l| ensures l[i].accessed < l[j].accessed {
      assert AccessedAt()(l[i]) <= AccessedAt()(l[j]);
      if l[i].accessed == l[j].accessed {
        var v := l[i].accessed;
        assert WithKey(bs, AccessedAt(), v) == WithKey(l, AccessedAt(), v);
        TwoWithKey(l, i, j);
        AtMostOneWithKey(bs, v);
      }
    }
  }

  lemma {:induction false} OneWithKey(bs: seq<Block>, i: nat)
    requires i < |bs|
    ensures |WithKey(bs, AccessedAt(), bs[i].accessed)| >= 1
  {
    if i == 0 {
    } else {
      OneWithKey(bs[1..], i - 1);
    }
  }

  lemma {:induction false} TwoWithKey(bs: seq<Block>, i: nat, j: nat)
    requires i < j < |bs| && bs[i].accessed == bs[j].accessed
    ensures |WithKey(bs, AccessedAt(), bs[i].accessed)| >= 2
  {
    if i == 0 {
      OneWithKey(bs[1..], j - 1);
    } else {
      TwoWithKey(bs[1..], i - 1, j - 1);
    }
  }

  lemma {:induction false} AtMostOneWithKey(bs: seq<Block>, v: real)
    requires DistinctTimes(bs)
    ensures |WithKey(bs, AccessedAt(), v)| <= 1
  {
    if |bs| == 0 {
    } else {
      AtMostOneWithKey(bs[1..], v);
      if bs[0].accessed == v {
        WithKeyFinds(bs[1..], AccessedAt(), v);
      }
    }
  }

  /** Sorting is determined by the members when access times are distinct. */
  lemma SortIs(bs: seq<Block>, l: seq<Block>)
    requires DistinctTimes(bs) && StrictlySorted(l)
    requires forall b :: b in l <==> b in bs
    ensures Sort(bs, AccessedAt()) == l
  {
    SortStrict(bs);
    SortMembers(bs);
    StrictlySortedUnique(Sort(bs, AccessedAt()), l);
  }

  lemma {:induction false} WithoutMembers(bs: seq<Block>, ids: seq<string>)
    ensures forall b :: b in Without(bs, ids) <==> b in bs && b.id !in ids
  {
    if |bs| == 0 {
    } else {
      WithoutMembers(bs[1..], ids);
      assert forall b :: b in bs <==> b == bs[0] || b in bs[1..];
    }
  }

  lemma {:induction false} WithoutStaysSorted(l: seq<Block>, ids: seq<string>)
    requires StrictlySorted(l)
    ensures StrictlySorted(Without(l, ids))
  {
    if |l| == 0 {
    } else {
      WithoutStaysSorted(l[1..], ids);
      WithoutMembers(l[1..], ids);
      var rest := Without(l[1..], ids);
      forall j | 0 <= j < |rest| ensures l[0].accessed < rest[j].accessed {
        assert rest[j] in l[1..];
      }
    }
  }

  lemma {:induction false} EntriesWithout(l: seq<Block>, id: string)
    ensures Entries(Without(l, [id])) == Forget(Entries(l), id)
  {
    if |l| == 0 {
    } else {
      EntriesWithout(l[1..], id);
      if l[0].id == id {
        assert Without(l, [id]) == Without(l[1..], [id]);
      } else {
        assert Without(l, [id])[1..] == Without(l[1..], [id]);
      }
      assert Entries(l)[1..] == Entries(l[1..]);
    }
  }

  lemma {:induction false} EntriesAppend(l: seq<Block>, b: Block)
    ensures Entries(l + [b]) == Entries(l) + [Entry(b.id, b.size)]
  {
    if |l| == 0 {
      assert l + [b] == [b];
    } else {
      assert (l + [b])[1..] == l[1..] + [b];
      EntriesAppend(l[1..], b);
    }
  }

  lemma {:induction false} LookupEntries(l: seq<Block>, b: Block)
    requires b in l && forall c :: c in l && c.id == b.id ==> c == b
    ensures Lookup(Entries(l), b.id) == Some(Entry(b.id, b.size))
  {
    if l[0].id != b.id {
      LookupEntries(l[1..], b);
    } else {
      assert l[0] in l;
    }
  }

  lemma {:induction false} LookupAbsent(l: seq<Block>, id: string)
    requires forall c :: c in l ==> c.id != id
    ensures Lookup(Entries(l), id) == None
  {
    if |l| == 0 {
    } else {
      assert l[0] in l;
      LookupAbsent(l[1..], id);
    }
  }

  lemma {:induction false} SortWeight(bs: seq<Block>)
    ensures Weight(Entries(Sort(bs, AccessedAt()))) == Sum(bs)
    decreases |bs|
  {
    if |bs| == 0 {
    } else {
      var m := MinIndex(bs, AccessedAt());
      SortWeight(RemoveAt(bs, m));
      SumRemoveAt(bs, m);
      assert Entries(Sort(bs, AccessedAt()))[1..] == Entries(Sort(bs, AccessedAt())[1..]);
    }
  }

  // ------------------------------------------------------------- simulation

  ghost predicate IsLru(policy: string) {
    policy != "none" && policy != "fifo"
  }

  lemma VictimIsOldest(p: Pool)
    requires |p.blocks| > 0 && IsLru(p.policy)
    ensures var v := Victim(p).value;
      RecencyOf(p) == [Entry(p.blocks[v].id, p.blocks[v].size)] + RecencyOf(EvictAt(p, v))
  {
    var l := Sort(p.blocks, AccessedAt());
    var m := MinIndex(p.blocks, AccessedAt());
    assert l == [p.blocks[m]] + Sort(RemoveAt(p.blocks, m), AccessedAt());
    assert l[1..] == Sort(RemoveAt(p.blocks, m), AccessedAt());
  }

  lemma ExcessShift(e: Entry, l: seq<Entry>, size: real, total: real)
    requires Weight([e] + l) + size > total
    ensures var k := Excess(l, size, total);
      && Excess([e] + l, size, total) == k + 1
      && ([e] + l)[k + 1..] == l[k..]
      && EntryIds(([e] + l)[..k + 1]) == [e.id] + EntryIds(l[..k])
  {
    var k := Excess(l, size, total);
    assert ([e] + l)[1..] == l;
    assert ([e] + l)[..k + 1] == [e] + l[..k];
    assert ([e] + l[..k])[1..] == l[..k];
  }

  /** The eviction loop takes entries off the old end, one by one. */
  lemma {:induction false} MakeRoomRefines(p: Pool, size: real)
    requires WellFormed(p) && IsLru(p.policy) && size <= p.total
    ensures var k := Excess(RecencyOf(p), size, p.total);
      && MakeRoom(p, size).ok
      && RecencyOf(MakeRoom(p, size).pool) == RecencyOf(p)[k..]
      && MakeRoom(p, size).evicted == EntryIds(RecencyOf(p)[..k])
    decreases |p.blocks|
  {
    SortWeight(p.blocks);
    if p.used + size > p.total {
      var v := Victim(p).value;
      var q := EvictAt(p, v);
      DropKeeps(p, v);
      MakeRoomRefines(q, size);
      VictimIsOldest(p);
      ExcessShift(Entry(p.blocks[v].id, p.blocks[v].size), RecencyOf(q), size, p.total);
    }
  }

  lemma ReleasedTimes(p: Pool, id: string)
    requires DistinctTimes(p.blocks)
    ensures DistinctTimes(Released(p, id).blocks)
  {
    var i, cs := Find(p.blocks, id), Released(p, id).blocks;
    if i < |p.blocks| {
      assert forall k :: 0 <= k < |cs| ==> cs[k] == p.blocks[if k < i then k else k + 1];
    }
  }

  lemma ReleasedRefines(p: Pool, id: string)
    requires WellFormed(p) && DistinctTimes(p.blocks)
    ensures RecencyOf(Released(p, id)) == Forget(RecencyOf(p), id)
  {
    var l := Sort(p.blocks, AccessedAt());
    var m, cs := Without(l, [id]), Released(p, id).blocks;
    SortStrict(p.blocks);
    WithoutStaysSorted(l, [id]);
    EntriesWithout(l, id);
    ReleasedTimes(p, id);
    forall b ensures b in m <==> b in cs {
      SortMembers(p.blocks);
      WithoutMembers(l, [id]);
      ReleaseKeeps(p, id);
    }
    SortIs(cs, m);
  }

  lemma NewestGoesLast(bs: seq<Block>, cs: seq<Block>, b: Block)
    requires DistinctTimes(bs) && DistinctTimes(cs)
    requires forall c :: c in bs ==> c.accessed < b.accessed
    requires forall c :: c in cs <==> c in bs || c == b
    ensures Entries(Sort(cs, AccessedAt())) == Entries(Sort(bs, AccessedAt())) + [Entry(b.id, b.size)]
  {
    var l := Sort(bs, AccessedAt());
    SortStrict(bs);
    SortMembers(bs);
    assert forall i :: 0 <= i < |l| ==> l[i] in bs;
    SortIs(cs, l + [b]);
    EntriesAppend(l, b);
  }

  lemma AllocateEvictsOldest(p: Pool, op: Op)
    requires WellFormed(p) && DistinctTimes(p.blocks) && IsLru(p.policy) && op.Alloc?
    ensures EvictedBy(p, op) == ListEvicted(p.total, RecencyOf(p), op)
  {
    if op.size <= p.total {
      ReleaseKeeps(p, op.id);
      ReleasedRefines(p, op.id);
      MakeRoomRefines(Released(p, op.id), op.size);
    }
  }

  /** What is left when room has been made is older than the newcomer. */
  lemma RoomIsOlder(p: Pool, id: string, size: real, t: real)
    requires WellFormed(p) && forall b :: b in p.blocks ==> b.accessed < t
    ensures forall c :: c in MakeRoom(Released(p, id), size).pool.blocks ==> c.accessed < t
  {
    ReleaseKeeps(p, id);
    MakeRoomKeeps(Released(p, id), size);
  }

  lemma TimesOfRest(bs: seq<Block>, b: Block)
    requires DistinctTimes(bs + [b])
    ensures DistinctTimes(bs)
  {
    assert forall i :: 0 <= i < |bs| ==> (bs + [b])[i] == bs[i];
  }

  lemma AllocateRefines(p: Pool, op: Op)
    requires WellFormed(p) && DistinctTimes(p.blocks) && IsLru(p.policy) && Legal(op) && op.Alloc?
    requires forall b :: b in p.blocks ==> b.accessed < op.t1
    requires DistinctTimes(Apply(p, op).blocks)
    ensures RecencyOf(Apply(p, op)) == ListApply(p.total, RecencyOf(p), op)
  {
    if op.size <= p.total {
      var q, b := Released(p, op.id), Block(op.id, op.session, op.tokens, op.size, op.t0, op.t1);
      var bs := MakeRoom(q, op.size).pool.blocks;
      RoomIsOlder(p, op.id, op.size, op.t1);
      ReleasedRefines(p, op.id);
      assert WellFormed(q) by { ReleaseKeeps(p, op.id); }
      MakeRoomRefines(q, op.size);
      TimesOfRest(bs, b);
      NewestGoesLast(bs, bs + [b], b);
    }
  }

  lemma UpdateMembers(bs: seq<Block>, i: nat, b: Block, c: Block)
    requires Distinct(bs) && i < |bs|
    ensures c in bs[i := b] <==> (c in bs && c.id != bs[i].id) || c == b
  {
    var cs := bs[i := b];
    assert cs[i] == b;
    if c in bs && c.id != bs[i].id {
      var j :| 0 <= j < |bs| && bs[j] == c;
      assert cs[j] == c;
    }
    if c in cs {
      var j :| 0 <= j < |cs| && cs[j] == c;
      assert j != i ==> bs[j] == c;
    }
  }

  /** Stamping one block leaves the others as a release of it would. */
  lemma TouchedMembers(p: Pool, id: string, t: real, c: Block)
    requires WellFormed(p) && Has(p.blocks, id)
    ensures var b := p.blocks[Find(p.blocks, id)];
      c in Touched(p, id, t).blocks <==> c in Released(p, id).blocks || c == b.(accessed := t)
  {
    var i := Find(p.blocks, id);
    ReleaseKeeps(p, id);
    UpdateMembers(p.blocks, i, p.blocks[i].(accessed := t), c);
  }

  lemma LookupRecency(p: Pool, id: string)
    requires WellFormed(p)
    ensures Lookup(RecencyOf(p), id) == if Has(p.blocks, id) then Some(Entry(id, p.blocks[Find(p.blocks, id)].size)) else None
  {
    var l := Sort(p.blocks, AccessedAt());
    SortMembers(p.blocks);
    HasMember(p.blocks, id);
    if Has(p.blocks, id) {
      var b := p.blocks[Find(p.blocks, id)];
      forall c | c in l && c.id == id ensures c == b {
        var j :| 0 <= j < |p.blocks| && p.blocks[j] == c;
        FindAt(p.blocks, j);
      }
      LookupEntries(l, b);
    } else {
      LookupAbsent(l, id);
    }
  }

  lemma TouchMovesToEnd(p: Pool, id: string, t: real)
    requires WellFormed(p) && DistinctTimes(p.blocks) && Has(p.blocks, id)
    requires forall b :: b in p.blocks ==> b.accessed < t
    requires DistinctTimes(Touched(p, id, t).blocks)
    ensures RecencyOf(Touched(p, id, t)) == RecencyOf(Released(p, id)) + [Entry(id, p.blocks[Find(p.blocks, id)].size)]
  {
    var bs, cs := Released(p, id).blocks, Touched(p, id, t).blocks;
    var b := p.blocks[Find(p.blocks, id)].(accessed := t);
    ReleasedTimes(p, id);
    forall c | c in bs ensures c.accessed < t {
      ReleaseKeeps(p, id);
    }
    forall c ensures c in cs <==> c in bs || c == b {
      TouchedMembers(p, id, t, c);
    }
    NewestGoesLast(bs, cs, b);
  }

  lemma AccessRefines(p: Pool, op: Op)
    requires WellFormed(p) && DistinctTimes(p.blocks) && op.Access?
    requires forall b :: b in p.blocks ==> b.accessed < op.t
    requires DistinctTimes(Apply(p, op).blocks)
    ensures RecencyOf(Apply(p, op)) == ListApply(p.total, RecencyOf(p), op)
  {
    LookupRecency(p, op.id);
    if Has(p.blocks, op.id) {
      ReleasedRefines(p, op.id);
      TouchMovesToEnd(p, op.id, op.t);
    }
  }

  lemma StrictClockPrefix(ops: seq<Op>)
    requires |ops| > 0 && StrictClock(ops)
    ensures StrictClock(ops[..|ops| - 1])
  {
    var before := ops[..|ops| - 1];
    assert forall i :: 0 <= i < |before| ==> before[i] == ops[i];
  }

  /** Any run under a strict clock: contents and recency order agree after every call. */
  lemma {:induction false} LruIsARecencyList(total: real, policy: string, ops: seq<Op>)
    requires total >= 0.0 && IsLru(policy) && AllLegal(ops) && StrictClock(ops)
    ensures RecencyOf(Run(Fresh(total, policy), ops)) == ListRun(total, ops)
  {
    if |ops| == 0 {
    } else {
      LruIsARecencyList(total, policy, ops[..|ops| - 1]) by { StrictClockPrefix(ops); }
      LruStepRefines(total, policy, ops);
    }
  }

  /** ... and every call evicts the ids that the list drops from its old end. */
  lemma LruStepRefines(total: real, policy: string, ops: seq<Op>)
    requires total >= 0.0 && IsLru(policy) && AllLegal(ops) && StrictClock(ops) && |ops| > 0
    ensures var p, op := Run(Fresh(total, policy), ops[..|ops| - 1]), ops[|ops| - 1];
      && RecencyOf(Apply(p, op)) == ListApply(total, RecencyOf(p), op)
      && EvictedBy(p, op) == ListEvicted(total, RecencyOf(p), op)
  {
    var before, op := ops[..|ops| - 1], ops[|ops| - 1];
    var p := Run(Fresh(total, policy), before);
    StrictClockPrefix(ops);
    RunKeeps(Fresh(total, policy), before);
    StrictTimes(total, policy, before);
    StrictTimes(total, policy, ops);
    if !op.Free? {
      forall b | b in p.blocks ensures b.accessed < Start(op) <= End(op) {
        EarlierThanNext(total, policy, ops, b);
      }
    }
    match op {
      case Alloc(_, _, _, _, _, _) =>
        AllocateRefines(p, op);
        AllocateEvictsOldest(p, op);
      case Access(_, _) => AccessRefines(p, op);
      case Free(id) => ReleasedRefines(p, id);
    }
  }
}
