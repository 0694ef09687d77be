/** A decode node whose pool never evicts: blocks and active sequences match one to one. */
module NoEviction {
  import opened MemorySim
  import PoolRuns
  import opened Batching
  import opened BatchRuns
  import opened BatchLedger

  ghost predicate DistinctKv(n: Node) {
    forall i, j :: 0 <= i < j < |n.submitted| ==> n.submitted[i].kv != n.submitted[j].kv
  }

  ghost predicate HoldsBlock(p: Pool, r: Request) {
    exists b :: b in p.blocks && b.id == r.kv && b.size == r.size
  }

  ghost predicate OneToOne(n: Node) {
    && n.pool.policy == "none"
    && (forall s :: s in n.active ==> HoldsBlock(n.pool, s.req))
    && (forall b :: b in n.pool.blocks ==> OwnedBy(n.active, b.id))
    && |n.pool.blocks| == |n.active|
  }

  lemma KvApart(n: Node, s: Seq, t: Seq)
    requires AllSubmitted(n) && DistinctKv(n) && s in Everyone(n) && t in Everyone(n) && s.req.id != t.req.id
    ensures s.req.kv != t.req.kv
  {
    var i :| 0 <= i < |n.submitted| && n.submitted[i] == s.req;
    var j :| 0 <= j < |n.submitted| && n.submitted[j] == t.req;
    assert i < j || j < i;
  }

  /** The newcomer's kv id is not in the pool, and without eviction nothing else moves. */
  lemma AllocateWithoutEviction(p: Pool, r: Request, t0: real, t1: real)
    requires WellFormed(p) && p.policy == "none" && !Has(p.blocks, r.kv)
    ensures var (q, outcome) := Allocated(p, r.kv, r.session, r.promptTokens, r.size, t0, t1);
      && q.policy == "none"
      && q.blocks == if outcome.Placed? then p.blocks + [Block(r.kv, r.session, r.promptTokens, r.size, t0, t1)] else p.blocks
  {
  }

  lemma KvIsNew(n: Node)
    requires Unique(n) && AllSubmitted(n) && DistinctKv(n) && OneToOne(n) && |n.waiting| > 0
    ensures !Has(n.pool.blocks, n.waiting[0].req.kv)
  {
    var s := n.waiting[0];
    HasMember(n.pool.blocks, s.req.kv);
    assert s in Everyone(n);
    forall b | b in n.pool.blocks ensures b.id != s.req.kv {
      var o :| o in n.active && o.req.kv == b.id;
      UniqueLists(n);
      assert o in Everyone(n);
      KvApart(n, s, o);
    }
  }

  lemma AdmitOneMatches(n: Node, t0: real, t1: real)
    requires WellFormed(n.pool) && Unique(n) && AllSubmitted(n) && DistinctKv(n) && OneToOne(n) && |n.waiting| > 0
    ensures OneToOne(AdmitOne(n, t0, t1))
  {
    var q, s := AdmitOne(n, t0, t1), n.waiting[0];
    KvIsNew(n);
    AllocateWithoutEviction(n.pool, s.req, t0, t1);
    forall x | x in q.active ensures HoldsBlock(q.pool, x.req) {
      if x in n.active {
        var b :| b in n.pool.blocks && b.id == x.req.kv && b.size == x.req.size;
        assert b in q.pool.blocks;
      } else {
        assert q.pool.blocks[|q.pool.blocks| - 1] in q.pool.blocks;
      }
    }
    forall b | b in q.pool.blocks ensures OwnedBy(q.active, b.id) {
      if b in n.pool.blocks {
        var o :| o in n.active && o.req.kv == b.id;
        assert o in q.active;
      } else {
        assert s in q.active;
      }
    }
  }

  lemma {:induction false} AdmittedMatches(cfg: Config, n: Node, clock: nat -> real, at: nat)
    requires GoodNode(cfg, n) && AllSubmitted(n) && DistinctKv(n) && OneToOne(n)
    requires |n.waiting| <= |n.submitted| && Reqs(n.waiting) == n.submitted[|n.submitted| - |n.waiting|..]
    ensures OneToOne(Admitted(cfg, n, clock, at))
    decreases |n.waiting|
  {
    if CanAdmit(cfg, n) {
      assert OneToOne(AdmitOne(n, clock(at), clock(at + 1))) by {
        AdmitOneMatches(n, clock(at), clock(at + 1));
      }
      AdmitOneStaysGood(cfg, n, clock(at), clock(at + 1));
      AdmitOneQueue(n, clock(at), clock(at + 1));
      AdmittedMatches(cfg, AdmitOne(n, clock(at), clock(at + 1)), clock, at + 2);
    }
  }

  lemma TouchedStill(p: Pool, id: string, t: real, a: Block)
    requires WellFormed(p) && a in p.blocks
    ensures exists b :: b in Touched(p, id, t).blocks && b.id == a.id && b.size == a.size
  {
    var i := Find(p.blocks, id);
    var k :| 0 <= k < |p.blocks| && p.blocks[k] == a;
    assert Touched(p, id, t).blocks[k] in Touched(p, id, t).blocks;
  }

  lemma {:induction false} TouchAllStill(p: Pool, ss: seq<Seq>, clock: nat -> real, a: Block)
    requires WellFormed(p) && a in p.blocks
    ensures exists b :: b in TouchAll(p, ss, clock).blocks && b.id == a.id && b.size == a.size
    decreases |ss|
  {
    if |ss| == 0 {
    } else {
      var k := |ss| - 1;
      TouchAllKeeps(p, ss[..k], clock);
      TouchAllStill(p, ss[..k], clock, a);
      var b :| b in TouchAll(p, ss[..k], clock).blocks && b.id == a.id && b.size == a.size;
      TouchedStill(TouchAll(p, ss[..k], clock), ss[k].req.kv, clock(k), b);
    }
  }

  ghost predicate ApartKv(ss: seq<Seq>) {
    forall i, j :: 0 <= i < j < |ss| ==> ss[i].req.kv != ss[j].req.kv
  }

  lemma {:induction false} FreeAllCount(p: Pool, ss: seq<Seq>)
    requires WellFormed(p) && ApartKv(ss) && forall s :: s in ss ==> Has(p.blocks, s.req.kv)
    ensures |FreeAll(p, ss).blocks| == |p.blocks| - |ss|
    decreases |ss|
  {
    if |ss| == 0 {
    } else {
      var q := Released(p, ss[0].req.kv);
      ReleaseKeeps(p, ss[0].req.kv);
      assert ss[0] in ss;
      forall s | s in ss[1..] ensures Has(q.blocks, s.req.kv) {
        assert s in ss;
        var i :| 0 <= i < |ss[1..]| && ss[1..][i] == s;
        assert ss[0].req.kv != ss[i + 1].req.kv;
        HasMember(p.blocks, s.req.kv);
        HasMember(q.blocks, s.req.kv);
      }
      FreeAllCount(q, ss[1..]);
    }
  }

  lemma {:induction false} OverApart(ss: seq<Seq>)
    requires ApartKv(ss)
    ensures ApartKv(Over(ss)) && ApartKv(Ongoing(ss))
  {
    if |ss| == 0 {
    } else {
      OverApart(ss[1..]);
      OverMembers(ss[1..]);
      var o, g := Over(ss[1..]), Ongoing(ss[1..]);
      forall j | 0 <= j < |o| ensures o[j].req.kv != ss[0].req.kv {
        assert o[j] in ss[1..];
      }
      forall j | 0 <= j < |g| ensures g[j].req.kv != ss[0].req.kv {
        assert g[j] in ss[1..];
      }
    }
  }

  lemma ActiveApart(n: Node)
    requires Unique(n) && AllSubmitted(n) && DistinctKv(n)
    ensures ApartKv(n.active)
  {
    UniqueLists(n);
    forall i, j | 0 <= i < j < |n.active| ensures n.active[i].req.kv != n.active[j].req.kv {
      assert n.active[i] in Everyone(n) && n.active[j] in Everyone(n);
      KvApart(n, n.active[i], n.active[j]);
    }
  }

  /** After the emission loop each sequence, finished or not, still has its block. */
  lemma StillHolds(cfg: Config, n: Node, clock: nat -> real, s: Seq)
    requires WellFormed(n.pool) && OneToOne(n) && s in EmitAll(cfg, n.active)
    ensures HoldsBlock(TouchAll(n.pool, n.active, clock), s.req)
  {
    var i :| 0 <= i < |n.active| && EmitAll(cfg, n.active)[i] == s;
    assert n.active[i] in n.active;
    var a :| a in n.pool.blocks && a.id == s.req.kv && a.size == s.req.size;
    TouchAllStill(n.pool, n.active, clock, a);
  }

  lemma OngoingIsNotFreed(ss: seq<Seq>, s: Seq)
    requires ApartKv(ss) && s in Ongoing(ss)
    ensures !OwnedBy(Over(ss), s.req.kv)
  {
    OverMembers(ss);
    var i :| 0 <= i < |ss| && ss[i] == s;
    forall o | o in Over(ss) ensures o.req.kv != s.req.kv {
      var j :| 0 <= j < |ss| && ss[j] == o;
      assert i < j || j < i;
    }
  }

  lemma OngoingHolds(cfg: Config, n: Node, clock: nat -> real, s: Seq)
    requires WellFormed(n.pool) && OneToOne(n) && ApartKv(n.active)
    requires s in Ongoing(EmitAll(cfg, n.active))
    ensures HoldsBlock(Passed(cfg, n, clock).pool, s.req)
  {
    var stepped := EmitAll(cfg, n.active);
    var touched := TouchAll(n.pool, n.active, clock);
    assert s in stepped by { OverMembers(stepped); }
    StillHolds(cfg, n, clock, s);
    var b :| b in touched.blocks && b.id == s.req.kv && b.size == s.req.size;
    OngoingIsNotFreed(stepped, s);
    TouchAllKeeps(n.pool, n.active, clock);
    FreeAllFrees(touched, Over(stepped));
    assert b in Passed(cfg, n, clock).pool.blocks;
  }

  lemma PassedMatches(cfg: Config, n: Node, clock: nat -> real)
    requires GoodNode(cfg, n) && AllSubmitted(n) && DistinctKv(n) && OneToOne(n)
    ensures OneToOne(Passed(cfg, n, clock))
  {
    var q, stepped := Passed(cfg, n, clock), EmitAll(cfg, n.active);
    var touched := TouchAll(n.pool, n.active, clock);
    ActiveApart(n);
    PassedPool(cfg, n, clock);
    forall b | b in q.pool.blocks ensures OwnedBy(q.active, b.id) {
      SurvivorIsOwned(cfg, n, clock, b);
    }
    forall s | s in q.active ensures HoldsBlock(q.pool, s.req) {
      OngoingHolds(cfg, n, clock, s);
    }
    TouchAllKeeps(n.pool, n.active, clock);
    OverApart(stepped);
    OverMembers(stepped);
    forall s | s in Over(stepped) ensures Has(touched.blocks, s.req.kv) {
      StillHolds(cfg, n, clock, s);
      HasMember(touched.blocks, s.req.kv);
    }
    FreeAllCount(touched, Over(stepped));
    TouchAllCounts(n.pool, n.active, clock);
    PartsLength(stepped);
  }

  lemma {:induction false} AdmittedSubmits(cfg: Config, n: Node, clock: nat -> real, at: nat)
    ensures Admitted(cfg, n, clock, at).submitted == n.submitted
    decreases |n.waiting|
  {
    if CanAdmit(cfg, n) {
      AdmittedSubmits(cfg, AdmitOne(n, clock(at), clock(at + 1)), clock, at + 2);
    }
  }

  lemma SubmitMatches(n: Node, r: Request)
    requires DistinctKv(Submitted(n, r))
    ensures DistinctKv(n) && (OneToOne(n) ==> OneToOne(Submitted(n, r)))
  {
    assert forall i :: 0 <= i < |n.submitted| ==> n.submitted[i] == Submitted(n, r).submitted[i];
  }

  lemma NextMatches(cfg: Config, m: Machine, e: Event)
    requires GoodNode(cfg, m.node) && Ledger(cfg, m.node) && !e.Outside?
    requires DistinctKv(Next(cfg, m, e).node)
    ensures DistinctKv(m.node)
    ensures OneToOne(m.node) ==> OneToOne(Next(cfg, m, e).node)
  {
    match e {
      case Submit(r) => SubmitMatches(m.node, r);
      case Admit(clock) =>
        assert DistinctKv(m.node) by {
          AdmittedSubmits(cfg, m.node, clock, 0);
        }
        if OneToOne(m.node) {
          AdmittedMatches(cfg, m.node, clock, 0);
        }
      case Pass(clock) =>
        if OneToOne(m.node) {
          PassedMatches(cfg, m.node, clock);
        }
    }
  }

  /** Under "none", with distinct kv ids and no outside calls: after every run each active
      sequence has its block at its own size, each block an owner, and nothing else is there. */
  lemma {:induction false} BlocksMatchBatch(cfg: Config, total: real, es: seq<Event>)
    requires total >= 0.0 && IsRun(cfg, Boot(PoolRuns.Fresh(total, "none")), es) && NoOutside(es)
    requires DistinctKv(After(cfg, Boot(PoolRuns.Fresh(total, "none")), es).node)
    ensures OneToOne(After(cfg, Boot(PoolRuns.Fresh(total, "none")), es).node)
  {
    if |es| == 0 {
    } else {
      var m, before := Boot(PoolRuns.Fresh(total, "none")), es[..|es| - 1];
      assert NoOutside(before) by {
        assert forall i :: 0 <= i < |before| ==> before[i] == es[i];
      }
      RunMatches(cfg, total, before, es[|es| - 1]);
      BlocksMatchBatch(cfg, total, before);
    }
  }

  /** One more event of a run. */
  lemma RunMatches(cfg: Config, total: real, before: seq<Event>, e: Event)
    requires total >= 0.0 && IsRun(cfg, Boot(PoolRuns.Fresh(total, "none")), before) && !e.Outside?
    requires DistinctKv(Next(cfg, After(cfg, Boot(PoolRuns.Fresh(total, "none")), before), e).node)
    ensures var m := After(cfg, Boot(PoolRuns.Fresh(total, "none")), before);
      DistinctKv(m.node) && (OneToOne(m.node) ==> OneToOne(Next(cfg, m, e).node))
  {
    var m := Boot(PoolRuns.Fresh(total, "none"));
    BootIsGood(cfg, total, "none");
    RunBalances(cfg, m, before);
    NextMatches(cfg, After(cfg, m, before), e);
  }
}
