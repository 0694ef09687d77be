/** The KV-cache pool: the `MemorySimulator` class and the functions that specify it. */
module MemorySim {
  import opened Prelude
  import opened Ordering

  // ---------------------------------------------------------------- values

  datatype Block = Block(id: string, session: string, tokens: int, size: real, created: real, accessed: real)

  /** The pool as a value. `blocks` is the dict in insertion order. */
  datatype Pool = Pool(total: real, policy: string, blocks: seq<Block>, used: real,
                       evictions: nat, ooms: nat, allocations: nat)

  datatype Outcome = Placed(evicted: seq<string>) | OutOfMemory

  function LowerChar(c: char): char {
    if 'A' <= c <= 'Z' then (c as int + 32) as char else c
  }

  function Lower(s: string): string {
    seq(|s|, i requires 0 <= i < |s| => LowerChar(s[i]))
  }

  /** The policy named by t, which has no capitals, is what any spelling of t gives and nothing else. */
  lemma LowerIgnoresCase(s: string, t: string)
    requires forall i :: 0 <= i < |t| ==> !('A' <= t[i] <= 'Z')
    ensures Lower(s) == t <==>
      |s| == |t| && forall i :: 0 <= i < |s| ==> s[i] == t[i] || ('A' <= s[i] <= 'Z' && t[i] as int == s[i] as int + 32)
  {
    assert |Lower(s)| == |s| && forall i :: 0 <= i < |s| ==> Lower(s)[i] == LowerChar(s[i]);
  }

  function Find(bs: seq<Block>, id: string): (i: nat)
    ensures i <= |bs|
    ensures i < |bs| ==> bs[i].id == id
    ensures forall j :: 0 <= j < i ==> bs[j].id != id
  {
    IndexOf(bs, (b: Block) => b.id, id)
  }

  predicate Has(bs: seq<Block>, id: string) {
    Find(bs, id) < |bs|
  }

  function Sum(bs: seq<Block>): real {
    if |bs| == 0 then 0.0 else bs[0].size + Sum(bs[1..])
  }

  function CreatedAt(): Block -> real { (b: Block) => b.created }

  function AccessedAt(): Block -> real { (b: Block) => b.accessed }

  /** Any policy other than "fifo" (and "none") is LRU. */
  function Key(policy: string): Block -> real {
    if policy == "fifo" then CreatedAt() else AccessedAt()
  }

  // ------------------------------------------------- operations, as functions

  /** `_pick_victim`, as a position in the dict. */
  function Victim(p: Pool): (v: Option<nat>)
    ensures v.Some? ==> v.value < |p.blocks|
    ensures v.None? <==> |p.blocks| == 0 || p.policy == "none"
  {
    if |p.blocks| == 0 || p.policy == "none" then None
    else Some(MinIndex(p.blocks, Key(p.policy)))
  }

  /** The block at i has the least creation time (or access time), and none before it has the same. */
  ghost predicate IsFirstLeast(bs: seq<Block>, byCreation: bool, i: nat)
    requires i < |bs|
  {
    if byCreation
    then forall j :: 0 <= j < |bs| ==> bs[i].created <= bs[j].created && (j < i ==> bs[i].created < bs[j].created)
    else forall j :: 0 <= j < |bs| ==> bs[i].accessed <= bs[j].accessed && (j < i ==> bs[i].accessed < bs[j].accessed)
  }

  lemma FirstLeast(bs: seq<Block>, policy: string, m: nat)
    requires |bs| > 0 && m == MinIndex(bs, Key(policy))
    ensures IsFirstLeast(bs, policy == "fifo", m)
  {
    forall j | 0 <= j < |bs| ensures Key(policy)(bs[m]) <= Key(policy)(bs[j]) && (j < m ==> Key(policy)(bs[m]) < Key(policy)(bs[j])) {
    }
  }

  function Drop(p: Pool, i: nat): Pool
    requires i < |p.blocks|
  {
    p.(blocks := RemoveAt(p.blocks, i), used := p.used - p.blocks[i].size)
  }

  function Released(p: Pool, id: string): Pool {
    if Has(p.blocks, id) then Drop(p, Find(p.blocks, id)) else p
  }

  function EvictAt(p: Pool, i: nat): Pool
    requires i < |p.blocks|
  {
    Drop(p, i).(evictions := p.evictions + 1)
  }

  datatype Room = Room(pool: Pool, evicted: seq<string>, ok: bool)

  /** The eviction loop of `allocate`. */
  function MakeRoom(p: Pool, size: real): Room
    decreases |p.blocks|
  {
    if p.used + size <= p.total then Room(p, [], true)
    else
      var v := Victim(p);
      if v.None? then Room(p.(ooms := p.ooms + 1), [], false)
      else
        var r := MakeRoom(EvictAt(p, v.value), size);
        r.(evicted := [p.blocks[v.value].id] + r.evicted)
  }

  function Prepend(evicted: seq<string>, r: Room): Room {
    Room(r.pool, evicted + r.evicted, r.ok)
  }

  lemma PrependNothing(evicted: seq<string>, r: Room)
    ensures Prepend([], r) == r
    ensures r.evicted == [] ==> Prepend(evicted, r) == Room(r.pool, evicted, r.ok)
  {
    assert evicted + [] == evicted && [] + r.evicted == r.evicted;
  }

  /** One turn of the loop, seen from after it. */
  lemma MakeRoomTurn(p: Pool, size: real, evicted: seq<string>)
    requires p.used + size > p.total && Victim(p).Some?
    ensures var i := Victim(p).value;
      Prepend(evicted, MakeRoom(p, size)) == Prepend(evicted + [p.blocks[i].id], MakeRoom(EvictAt(p, i), size))
  {
    var i := Victim(p).value;
    ConcatAssociates(evicted, p.blocks[i].id, MakeRoom(EvictAt(p, i), size).evicted);
  }

  function Store(p: Pool, b: Block): Pool {
    p.(blocks := p.blocks + [b], used := p.used + b.size, allocations := p.allocations + 1)
  }

  /** `allocate`; t0 and t1 are the clock readings that fill created_at and last_access. */
  function Allocated(p: Pool, id: string, session: string, tokens: int, size: real, t0: real, t1: real): (Pool, Outcome) {
    if size > p.total then (p.(ooms := p.ooms + 1), OutOfMemory)
    else
      var room := MakeRoom(Released(p, id), size);
      if room.ok
      then (Store(room.pool, Block(id, session, tokens, size, t0, t1)), Placed(room.evicted))
      else (room.pool, OutOfMemory)
  }

  function Touched(p: Pool, id: string, t: real): Pool {
    var i := Find(p.blocks, id);
    if i < |p.blocks| then p.(blocks := p.blocks[i := p.blocks[i].(accessed := t)]) else p
  }

  // ---------------------------------------------------------- well-formedness

  ghost predicate Distinct(bs: seq<Block>) {
    forall i, j :: 0 <= i < j < |bs| ==> bs[i].id != bs[j].id
  }

  ghost predicate SizesNonNegative(bs: seq<Block>) {
    forall i :: 0 <= i < |bs| ==> bs[i].size >= 0.0
  }

  /** One block per id, and the running total is the sum of the footprints. */
  ghost predicate Accounted(p: Pool) {
    Distinct(p.blocks) && p.used == Sum(p.blocks)
  }

  /** ... and, no size being negative, the total fits the pool. */
  ghost predicate WellFormed(p: Pool) {
    Accounted(p) && SizesNonNegative(p.blocks) && p.used <= p.total
  }

  lemma {:induction false} SumRemoveAt(bs: seq<Block>, i: nat)
    requires i < |bs|
    ensures Sum(RemoveAt(bs, i)) == Sum(bs) - bs[i].size
  {
    if i == 0 {
      assert RemoveAt(bs, 0) == bs[1..];
    } else {
      assert RemoveAt(bs, i)[1..] == RemoveAt(bs[1..], i - 1);
      SumRemoveAt(bs[1..], i - 1);
    }
  }

  lemma {:induction false} SumAppend(bs: seq<Block>, cs: seq<Block>)
    ensures Sum(bs + cs) == Sum(bs) + Sum(cs)
  {
    if |bs| == 0 {
      assert bs + cs == cs;
    } else {
      assert (bs + cs)[1..] == bs[1..] + cs;
      SumAppend(bs[1..], cs);
    }
  }

  lemma {:induction false} SumNonNegative(bs: seq<Block>)
    requires SizesNonNegative(bs)
    ensures Sum(bs) >= 0.0
  {
    if |bs| == 0 {
    } else {
      SumNonNegative(bs[1..]);
    }
  }

  lemma {:induction false} SumUpdate(bs: seq<Block>, i: nat, b: Block)
    requires i < |bs| && b.size == bs[i].size
    ensures Sum(bs[i := b]) == Sum(bs)
  {
    if i == 0 {
      assert bs[i := b][1..] == bs[1..];
    } else {
      assert bs[i := b][1..] == bs[1..][i - 1 := b];
      SumUpdate(bs[1..], i - 1, b);
    }
  }

  lemma FindAt(bs: seq<Block>, i: nat)
    requires Distinct(bs) && i < |bs|
    ensures Find(bs, bs[i].id) == i
  {
    var f := Find(bs, bs[i].id);
    assert !(i < f);
    assert !(f < i);
  }

  lemma HasMember(bs: seq<Block>, id: string)
    ensures Has(bs, id) <==> exists b :: b in bs && b.id == id
  {
    if Has(bs, id) {
      assert bs[Find(bs, id)] in bs;
    }
  }

  lemma RemoveMembers(bs: seq<Block>, i: nat)
    requires Distinct(bs) && i < |bs|
    ensures Distinct(RemoveAt(bs, i))
    ensures forall b :: b in RemoveAt(bs, i) <==> b in bs && b.id != bs[i].id
  {
    var cs := RemoveAt(bs, i);
    assert forall k :: 0 <= k < |cs| ==> cs[k] == bs[if k < i then k else k + 1];
    forall b | b in bs && b.id != bs[i].id ensures b in cs {
      var k :| 0 <= k < |bs| && bs[k] == b;
      assert cs[if k < i then k else k - 1] == b;
    }
  }

  lemma RemoveSizes(bs: seq<Block>, i: nat)
    requires i < |bs| && SizesNonNegative(bs)
    ensures SizesNonNegative(RemoveAt(bs, i))
  {
    var cs := RemoveAt(bs, i);
    assert forall k :: 0 <= k < |cs| ==> cs[k] == bs[if k < i then k else k + 1];
  }

  lemma DropKeeps(p: Pool, i: nat)
    requires Accounted(p) && i < |p.blocks|
    ensures Accounted(Drop(p, i)) && Accounted(EvictAt(p, i))
    ensures WellFormed(p) ==> WellFormed(Drop(p, i)) && WellFormed(EvictAt(p, i))
    ensures forall b :: b in Drop(p, i).blocks <==> b in p.blocks && b.id != p.blocks[i].id
  {
    RemoveMembers(p.blocks, i);
    SumRemoveAt(p.blocks, i);
    if WellFormed(p) {
      RemoveSizes(p.blocks, i);
    }
  }

  lemma ReleaseKeeps(p: Pool, id: string)
    requires Accounted(p)
    ensures Accounted(Released(p, id)) && !Has(Released(p, id).blocks, id)
    ensures WellFormed(p) ==> WellFormed(Released(p, id))
    ensures forall b :: b in Released(p, id).blocks <==> b in p.blocks && b.id != id
  {
    HasMember(p.blocks, id);
    if Has(p.blocks, id) {
      DropKeeps(p, Find(p.blocks, id));
    }
    HasMember(Released(p, id).blocks, id);
  }

  /** What any number of evictions keeps. */
  lemma {:induction false} MakeRoomKeeps(p: Pool, size: real)
    requires Accounted(p)
    ensures var r := MakeRoom(p, size);
      && Accounted(r.pool) && r.pool.total == p.total && r.pool.policy == p.policy
      && (WellFormed(p) ==> WellFormed(r.pool))
      && (r.ok ==> r.pool.used + size <= p.total && r.pool.ooms == p.ooms)
      && (!r.ok ==> r.pool.ooms == p.ooms + 1)
      && r.pool.evictions == p.evictions + |r.evicted|
      && |r.pool.blocks| + |r.evicted| == |p.blocks|
      && r.pool.allocations == p.allocations
      && (forall b :: b in r.pool.blocks ==> b in p.blocks)
    decreases |p.blocks|
  {
    if p.used + size > p.total && Victim(p).Some? {
      DropKeeps(p, Victim(p).value);
      MakeRoomKeeps(EvictAt(p, Victim(p).value), size);
    }
  }

  lemma StoreKeeps(p: Pool, b: Block)
    requires Accounted(p) && !Has(p.blocks, b.id)
    ensures Accounted(Store(p, b))
    ensures WellFormed(p) && b.size >= 0.0 && p.used + b.size <= p.total ==> WellFormed(Store(p, b))
  {
    SumAppend(p.blocks, [b]);
    HasMember(p.blocks, b.id);
    assert Sum([b]) == b.size;
  }

  /** Success or failure, whatever the size. */
  lemma AllocateKeeps(p: Pool, id: string, session: string, tokens: int, size: real, t0: real, t1: real)
    requires Accounted(p)
    ensures Accounted(Allocated(p, id, session, tokens, size, t0, t1).0)
    ensures WellFormed(p) && size >= 0.0 ==> WellFormed(Allocated(p, id, session, tokens, size, t0, t1).0)
    ensures Allocated(p, id, session, tokens, size, t0, t1).0.total == p.total
    ensures Allocated(p, id, session, tokens, size, t0, t1).0.policy == p.policy
  {
    if size <= p.total {
      var q := Released(p, id);
      ReleaseKeeps(p, id);
      MakeRoomKeeps(q, size);
      HasMember(q.blocks, id);
      HasMember(MakeRoom(q, size).pool.blocks, id);
      if MakeRoom(q, size).ok {
        StoreKeeps(MakeRoom(q, size).pool, Block(id, session, tokens, size, t0, t1));
      }
    }
  }

  lemma TouchKeeps(p: Pool, id: string, t: real)
    requires Accounted(p)
    ensures Accounted(Touched(p, id, t))
    ensures WellFormed(p) ==> WellFormed(Touched(p, id, t))
  {
    var i := Find(p.blocks, id);
    if i < |p.blocks| {
      SumUpdate(p.blocks, i, p.blocks[i].(accessed := t));
    }
  }

  // -------------------------------------------------------------- the class

  class MemorySimulator {
    const total: real
    const policy: string
    var blocks: seq<Block>
    var used: real
    var evictions: nat
    var oomEvents: nat
    var allocations: nat

    ghost function View(): Pool
      reads this
    {
      Pool(total, policy, blocks, used, evictions, oomEvents, allocations)
    }

    ghost predicate Valid()
      reads this
    {
      Accounted(View())
    }

    constructor (total: real, evictionPolicy: string)
      ensures Valid()
      ensures View() == Pool(total, Lower(evictionPolicy), [], 0.0, 0, 0, 0)
    {
      this.total, policy := total, Lower(evictionPolicy);
      blocks, used := [], 0.0;
      evictions, oomEvents, allocations := 0, 0, 0;
    }

    function PickVictim(): (v: Option<string>)
      reads this
      ensures v.None? <==> |blocks| == 0 || policy == "none"
      ensures v.Some? ==> exists i :: 0 <= i < |blocks| && blocks[i].id == v.value && IsFirstLeast(blocks, policy == "fifo", i)
      ensures v == match Victim(View()) case None => None case Some(i) => Some(blocks[i].id)
    {
      if |blocks| == 0 || policy == "none" then None
      else
        var m := MinIndex(blocks, Key(policy));
        FirstLeast(blocks, policy, m);
        Some(blocks[m].id)
    }

    /** `self._blocks.pop(id)`, with its size taken off the running total. */
    method Pop(id: string)
      requires Has(blocks, id)
      modifies this
      ensures View() == Drop(old(View()), Find(old(blocks), id))
    {
      var i := Find(blocks, id);
      used := used - blocks[i].size;
      blocks := RemoveAt(blocks, i);
    }

    /** The body of the eviction loop, once a victim is picked. */
    method Evict(victim: string)
      requires Valid() && PickVictim() == Some(victim)
      modifies this
      ensures Valid() && |blocks| < |old(blocks)|
      ensures View() == EvictAt(old(View()), Victim(old(View())).value)
    {
      ghost var p := View();
      ghost var i := Victim(p).value;
      FindAt(blocks, i);
      DropKeeps(p, i);
      Pop(victim);
      evictions := evictions + 1;
      assert View() == EvictAt(p, i);
    }

    /** The eviction loop: drop victims until the newcomer fits or none is left. */
    method EvictUntilFits(size: real) returns (ok: bool, evicted: seq<string>)
      requires Valid()
      modifies this
      ensures Room(View(), evicted, ok) == MakeRoom(old(View()), size)
    {
      ghost var room := MakeRoom(View(), size);
      evicted := [];
      PrependNothing([], room);
      while used + size > total
        invariant Valid()
        invariant room == Prepend(evicted, MakeRoom(View(), size))
        decreases |blocks|
      {
        var victim := PickVictim();
        if victim.None? {
          PrependNothing(evicted, MakeRoom(View(), size));
          oomEvents := oomEvents + 1;
          return false, evicted;
        }
        MakeRoomTurn(View(), size, evicted);
        Evict(victim.value);
        evicted := evicted + [victim.value];
      }
      PrependNothing(evicted, MakeRoom(View(), size));
      ok := true;
    }

    method Allocate(id: string, session: string, tokens: int, size: real, t0: real, t1: real) returns (r: Outcome)
      requires Valid()
      modifies this
      ensures Valid()
      ensures (View(), r) == Allocated(old(View()), id, session, tokens, size, t0, t1)
    {
      AllocateKeeps(View(), id, session, tokens, size, t0, t1);
      if size > total {
        oomEvents := oomEvents + 1;
        return OutOfMemory;
      }
      ReleaseKeeps(View(), id);
      if Has(blocks, id) {
        Pop(id);
      }
      ghost var room := MakeRoom(View(), size);
      assert room == MakeRoom(Released(old(View()), id), size);
      var ok, evicted := EvictUntilFits(size);
      assert room == Room(View(), evicted, ok);
      if !ok {
        return OutOfMemory;
      }
      blocks := blocks + [Block(id, session, tokens, size, t0, t1)];
      used := used + size;
      allocations := allocations + 1;
      r := Placed(evicted);
      assert View() == Store(room.pool, Block(id, session, tokens, size, t0, t1));
    }

    method Touch(id: string, now: real) returns (present: bool)
      requires Valid()
      modifies this
      ensures Valid()
      ensures present == Has(old(blocks), id)
      ensures View() == Touched(old(View()), id, now)
    {
      TouchKeeps(View(), id, now);
      var i := Find(blocks, id);
      if i == |blocks| {
        return false;
      }
      blocks := blocks[i := blocks[i].(accessed := now)];
      present := true;
    }

    method Free(id: string) returns (present: bool)
      requires Valid()
      modifies this
      ensures Valid()
      ensures present == Has(old(blocks), id)
      ensures View() == Released(old(View()), id)
    {
      ReleaseKeeps(View(), id);
      if !Has(blocks, id) {
        return false;
      }
      Pop(id);
      present := true;
    }
  }
}
