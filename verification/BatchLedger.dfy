/** Bookkeeping across the scheduler and its pool: nothing lost, nothing leaked, counters exact. */
module BatchLedger {
  import opened Prelude
  import Ordering
  import opened MemorySim
  import Eviction
  import opened PoolRuns
  import History
  import opened Batching
  import opened BatchRuns

  function Reqs(ss: seq<Seq>): seq<Request> {
    if |ss| == 0 then [] else [ss[0].req] + Reqs(ss[1..])
  }

  function RequestIds(rs: seq<Request>): multiset<string> {
    if |rs| == 0 then multiset{} else multiset{rs[0].id} + RequestIds(rs[1..])
  }

  function TokenCount(out: seq<Chunk>): nat {
    if |out| == 0 then 0 else (if out[0].finish.None? then 1 else 0) + TokenCount(out[1..])
  }

  function StreamTokens(ss: seq<Seq>): nat {
    if |ss| == 0 then 0 else TokenCount(ss[0].out) + StreamTokens(ss[1..])
  }

  function RejectedOf(ss: seq<Seq>): seq<Seq> {
    if |ss| == 0 then [] else (if ss[0].out == [OomChunk()] then [ss[0]] else []) + RejectedOf(ss[1..])
  }

  function ServedOf(ss: seq<Seq>): seq<Seq> {
    if |ss| == 0 then [] else (if ss[0].out == [OomChunk()] then [] else [ss[0]]) + ServedOf(ss[1..])
  }

  /** Every submitted request is in exactly one place; requests leave the queue in
      submission order; the batch respects its cap; every token emitted was counted. */
  ghost predicate Ledger(cfg: Config, n: Node) {
    && Known(n) == RequestIds(n.submitted)
    && AllSubmitted(n)
    && |n.waiting| <= |n.submitted|
    && Reqs(n.waiting) == n.submitted[|n.submitted| - |n.waiting|..]
    && |n.active| <= (if cfg.cap > 0 then cfg.cap else 0)
    && n.tokens == StreamTokens(n.waiting) + StreamTokens(n.active) + StreamTokens(n.closed)
  }

  // ------------------------------------------------------------- list facts

  lemma {:induction false} StreamTokensConcat(ss: seq<Seq>, ts: seq<Seq>)
    ensures StreamTokens(ss + ts) == StreamTokens(ss) + StreamTokens(ts)
  {
    if |ss| == 0 {
      assert ss + ts == ts;
    } else {
      assert (ss + ts)[1..] == ss[1..] + ts;
      StreamTokensConcat(ss[1..], ts);
    }
  }

  lemma {:induction false} TokenCountConcat(a: seq<Chunk>, b: seq<Chunk>)
    ensures TokenCount(a + b) == TokenCount(a) + TokenCount(b)
  {
    if |a| == 0 {
      assert a + b == b;
    } else {
      assert (a + b)[1..] == a[1..] + b;
      TokenCountConcat(a[1..], b);
    }
  }

  lemma TokenCountOne(c: Chunk)
    ensures TokenCount([c]) == if c.finish.None? then 1 else 0
  {
    assert [c][1..] == [];
  }

  lemma EmitCounts(cfg: Config, s: Seq)
    ensures TokenCount(Emit(cfg, s).out) == TokenCount(s.out) + 1
  {
    var token := Chunk(cfg.model(s.req.session, s.req.promptTokens + s.generated), s.generated, None);
    var stop := Chunk("", s.generated + 1, Some("length"));
    TokenCountOne(token);
    TokenCountOne(stop);
    TokenCountConcat(s.out, [token]);
    TokenCountConcat(s.out + [token], [stop]);
  }

  lemma {:induction false} EmitAllCounts(cfg: Config, ss: seq<Seq>)
    ensures StreamTokens(EmitAll(cfg, ss)) == StreamTokens(ss) + |ss|
  {
    if |ss| == 0 {
    } else {
      EmitCounts(cfg, ss[0]);
      EmitAllCounts(cfg, ss[1..]);
      assert EmitAll(cfg, ss)[1..] == EmitAll(cfg, ss[1..]);
    }
  }

  lemma {:induction false} StreamTokensSplit(ss: seq<Seq>)
    ensures StreamTokens(ss) == StreamTokens(Ongoing(ss)) + StreamTokens(Over(ss))
    ensures |Ongoing(ss)| <= |ss|
  {
    if |ss| == 0 {
    } else {
      StreamTokensSplit(ss[1..]);
      if Finished(ss[0]) {
        assert Ongoing(ss) == Ongoing(ss[1..]) && Over(ss)[1..] == Over(ss[1..]);
      } else {
        assert Over(ss) == Over(ss[1..]) && Ongoing(ss)[1..] == Ongoing(ss[1..]);
      }
    }
  }

  lemma {:induction false} ReqsAppend(ss: seq<Seq>, s: Seq)
    ensures Reqs(ss + [s]) == Reqs(ss) + [s.req]
  {
    if |ss| == 0 {
      assert ss + [s] == [s];
    } else {
      assert (ss + [s])[1..] == ss[1..] + [s];
      ReqsAppend(ss[1..], s);
    }
  }

  lemma {:induction false} RequestIdsAppend(rs: seq<Request>, r: Request)
    ensures RequestIds(rs + [r]) == RequestIds(rs) + multiset{r.id}
  {
    if |rs| == 0 {
      assert rs + [r] == [r];
    } else {
      assert (rs + [r])[1..] == rs[1..] + [r];
      RequestIdsAppend(rs[1..], r);
    }
  }

  lemma {:induction false} RequestIdsHave(rs: seq<Request>, r: Request)
    requires r in rs
    ensures RequestIds(rs)[r.id] >= 1
  {
    if rs[0] != r {
      RequestIdsHave(rs[1..], r);
    }
  }

  // ------------------------------------------------------------ each step keeps it

  lemma SubmittedBalances(cfg: Config, n: Node, r: Request)
    requires Ledger(cfg, n)
    ensures Ledger(cfg, Submitted(n, r))
  {
    var q := Submitted(n, r);
    SubmittedKnows(n, r);
    RequestIdsAppend(n.submitted, r);
    ReqsAppend(n.waiting, NewSeq(r));
    StreamTokensConcat(n.waiting, [NewSeq(r)]);
    assert StreamTokens([NewSeq(r)]) == 0;
    var k := |n.submitted| - |n.waiting|;
    assert q.submitted[k..] == n.submitted[k..] + [r];
  }

  ghost predicate AllSubmitted(n: Node) {
    forall s :: s in Everyone(n) ==> s.req in n.submitted
  }

  lemma AdmitOneTokens(n: Node, t0: real, t1: real)
    requires |n.waiting| > 0 && IsWaiting(n.waiting[0])
    ensures var q := AdmitOne(n, t0, t1);
      StreamTokens(q.waiting) + StreamTokens(q.active) + StreamTokens(q.closed)
      == StreamTokens(n.waiting) + StreamTokens(n.active) + StreamTokens(n.closed)
  {
    var s := n.waiting[0];
    var c := s.(out := s.out + [OomChunk()]);
    StreamTokensConcat(n.active, [s]);
    StreamTokensConcat(n.closed, [c]);
    assert c.out == [OomChunk()];
    TokenCountOne(OomChunk());
    assert StreamTokens([s]) == 0 && StreamTokens([c]) == 0;
  }

  lemma AdmitOneQueue(n: Node, t0: real, t1: real)
    requires |n.waiting| > 0 && AllSubmitted(n)
    requires |n.waiting| <= |n.submitted| && Reqs(n.waiting) == n.submitted[|n.submitted| - |n.waiting|..]
    ensures var q := AdmitOne(n, t0, t1);
      && AllSubmitted(q)
      && Reqs(q.waiting) == q.submitted[|q.submitted| - |q.waiting|..]
  {
    var q, s := AdmitOne(n, t0, t1), n.waiting[0];
    var k := |n.submitted| - |n.waiting|;
    assert Reqs(q.waiting) == Reqs(n.waiting)[1..];
    assert n.submitted[k..][1..] == n.submitted[k + 1..];
    assert s in n.waiting && s in Everyone(n);
    forall x | x in Everyone(q) ensures x.req in n.submitted {
      assert x in Everyone(n) || x == s.(out := s.out + [OomChunk()]);
    }
  }

  lemma AdmitOneBalances(cfg: Config, n: Node, t0: real, t1: real)
    requires Ledger(cfg, n) && CanAdmit(cfg, n) && (forall s :: s in n.waiting ==> IsWaiting(s))
    ensures Ledger(cfg, AdmitOne(n, t0, t1))
  {
    AdmitOneKnows(n, t0, t1);
    assert IsWaiting(n.waiting[0]);
    AdmitOneTokens(n, t0, t1);
    AdmitOneQueue(n, t0, t1);
  }

  lemma {:induction false} AdmittedBalances(cfg: Config, n: Node, clock: nat -> real, at: nat)
    requires Ledger(cfg, n) && (forall s :: s in n.waiting ==> IsWaiting(s))
    ensures Ledger(cfg, Admitted(cfg, n, clock, at))
    decreases |n.waiting|
  {
    if CanAdmit(cfg, n) {
      AdmitOneBalances(cfg, n, clock(at), clock(at + 1));
      AdmittedBalances(cfg, AdmitOne(n, clock(at), clock(at + 1)), clock, at + 2);
    }
  }

  lemma PassedTokens(cfg: Config, n: Node, clock: nat -> real)
    ensures var q := Passed(cfg, n, clock);
      StreamTokens(q.active) + StreamTokens(q.closed) == StreamTokens(n.active) + |n.active| + StreamTokens(n.closed)
    ensures |Passed(cfg, n, clock).active| <= |n.active|
  {
    var stepped := EmitAll(cfg, n.active);
    EmitAllCounts(cfg, n.active);
    StreamTokensSplit(stepped);
    StreamTokensConcat(n.closed, Over(stepped));
  }

  lemma PassedSubmitted(cfg: Config, n: Node, clock: nat -> real)
    requires AllSubmitted(n)
    ensures AllSubmitted(Passed(cfg, n, clock))
  {
    var q, stepped := Passed(cfg, n, clock), EmitAll(cfg, n.active);
    OverMembers(stepped);
    forall x | x in Everyone(q) ensures x.req in n.submitted {
      if x in stepped {
        var i :| 0 <= i < |stepped| && stepped[i] == x;
        assert n.active[i] in Everyone(n);
      } else {
        assert x in Everyone(n);
      }
    }
  }

  lemma PassedBalances(cfg: Config, n: Node, clock: nat -> real)
    requires Ledger(cfg, n)
    ensures Ledger(cfg, Passed(cfg, n, clock))
  {
    var q := Passed(cfg, n, clock);
    assert q.waiting == n.waiting && q.submitted == n.submitted && q.tokens == n.tokens + |n.active|;
    PassedKnows(cfg, n, clock);
    PassedTokens(cfg, n, clock);
    PassedSubmitted(cfg, n, clock);
  }

  lemma NextBalances(cfg: Config, m: Machine, e: Event)
    requires GoodNode(cfg, m.node) && Ledger(cfg, m.node)
    ensures Ledger(cfg, Next(cfg, m, e).node)
  {
    match e
    case Submit(r) => SubmittedBalances(cfg, m.node, r);
    case Admit(clock) => AdmittedBalances(cfg, m.node, clock, 0);
    case Pass(clock) => PassedBalances(cfg, m.node, clock);
    case Outside(op) => assert Known(Next(cfg, m, e).node) == Known(m.node);
  }

  lemma {:induction false} RunBalances(cfg: Config, m: Machine, es: seq<Event>)
    requires GoodNode(cfg, m.node) && Ledger(cfg, m.node) && IsRun(cfg, m, es)
    ensures GoodNode(cfg, After(cfg, m, es).node) && Ledger(cfg, After(cfg, m, es).node)
  {
    RunStaysGood(cfg, m, es);
    if |es| == 0 {
    } else {
      var before := es[..|es| - 1];
      RunBalances(cfg, m, before);
      NextBalances(cfg, After(cfg, m, before), es[|es| - 1]);
    }
  }

  lemma {:induction false} RejectedSplit(ss: seq<Seq>)
    ensures IdBag(ss) == IdBag(RejectedOf(ss)) + IdBag(ServedOf(ss))
  {
    if |ss| == 0 {
    } else {
      RejectedSplit(ss[1..]);
      var id, r, v := multiset{ss[0].req.id}, RejectedOf(ss[1..]), ServedOf(ss[1..]);
      if ss[0].out == [OomChunk()] {
        assert ServedOf(ss) == v && RejectedOf(ss)[1..] == r;
        assert IdBag(RejectedOf(ss)) == id + IdBag(r);
      } else {
        assert RejectedOf(ss) == r && ServedOf(ss)[1..] == v;
        assert IdBag(ServedOf(ss)) == id + IdBag(v);
      }
    }
  }

  /** The ledger after any run of a scheduler that starts empty. */
  lemma RunLedgerHolds(cfg: Config, total: real, policy: string, es: seq<Event>, r: Request)
    requires total >= 0.0 && IsRun(cfg, Boot(Fresh(total, policy)), es)
    requires r in After(cfg, Boot(Fresh(total, policy)), es).node.submitted
    ensures var n := After(cfg, Boot(Fresh(total, policy)), es).node;
      && IdBag(n.waiting)[r.id] + IdBag(n.active)[r.id] + IdBag(ServedOf(n.closed))[r.id] + IdBag(RejectedOf(n.closed))[r.id] == 1
      && Ledger(cfg, n)
  {
    var m := Boot(Fresh(total, policy));
    var n := After(cfg, m, es).node;
    BootIsGood(cfg, total, policy);
    RunBalances(cfg, m, es);
    RequestIdsHave(n.submitted, r);
    assert Known(n)[r.id] <= 1;
    RejectedSplit(n.closed);
  }

  /** `_admit` stops only when the queue is empty or the batch is full. */
  lemma {:induction false} AdmitFills(cfg: Config, n: Node, clock: nat -> real, at: nat)
    ensures var q := Admitted(cfg, n, clock, at);
      |q.waiting| == 0 || |q.active| >= cfg.cap
    decreases |n.waiting|
  {
    if CanAdmit(cfg, n) {
      AdmitFills(cfg, AdmitOne(n, clock(at), clock(at + 1)), clock, at + 2);
    }
  }

  // ---------------------------------------------------------- the order of the batch

  /** Where the batch's requests stand among those submitted: in that order, before those waiting. */
  ghost predicate ArePlaces(n: Node, places: seq<nat>) {
    && Ordering.Ascending(places) && |places| == |n.active| && |n.waiting| <= |n.submitted|
    && forall i :: 0 <= i < |places| ==> places[i] < |n.submitted| - |n.waiting| && n.active[i].req == n.submitted[places[i]]
  }

  lemma {:induction false} OngoingPlaces(ss: seq<Seq>) returns (places: seq<nat>)
    ensures Ordering.StandsAt(ss, places, Ongoing(ss)) && Ordering.Ascending(places)
  {
    if |ss| == 0 {
      places := [];
    } else {
      var rest := OngoingPlaces(ss[1..]);
      Ordering.ShiftedStands(ss, rest, Ongoing(ss[1..]));
      places := if Finished(ss[0]) then Ordering.Shifted(rest) else [0] + Ordering.Shifted(rest);
    }
  }

  lemma AdmitOneMoves(n: Node, t0: real, t1: real)
    requires |n.waiting| > 0
    ensures var q := AdmitOne(n, t0, t1);
      && q.waiting == n.waiting[1..] && q.submitted == n.submitted
      && (q.active == n.active || q.active == n.active + [n.waiting[0]])
  {
  }

  lemma AdmitOneInOrder(n: Node, q: Node, places: seq<nat>) returns (places': seq<nat>)
    requires |n.waiting| > 0 && ArePlaces(n, places) && n.submitted[|n.submitted| - |n.waiting|] == n.waiting[0].req
    requires q.waiting == n.waiting[1..] && q.submitted == n.submitted
    requires q.active == n.active || q.active == n.active + [n.waiting[0]]
    ensures ArePlaces(q, places')
  {
    places' := if q.active == n.active then places else places + [|n.submitted| - |n.waiting|];
  }

  lemma {:induction false} AdmittedInOrder(cfg: Config, n: Node, clock: nat -> real, at: nat, places: seq<nat>) returns (places': seq<nat>)
    requires ArePlaces(n, places) && Ledger(cfg, n) && (forall s :: s in n.waiting ==> IsWaiting(s))
    ensures ArePlaces(Admitted(cfg, n, clock, at), places')
    decreases |n.waiting|
  {
    places' := places;
    if CanAdmit(cfg, n) {
      var q := AdmitOne(n, clock(at), clock(at + 1));
      AdmitOneBalances(cfg, n, clock(at), clock(at + 1));
      AdmitOneMoves(n, clock(at), clock(at + 1));
      assert n.submitted[|n.submitted| - |n.waiting|..][0] == Reqs(n.waiting)[0];
      places' := AdmitOneInOrder(n, q, places);
      places' := AdmittedInOrder(cfg, q, clock, at + 2, places');
    }
  }

  lemma PassedInOrder(cfg: Config, n: Node, clock: nat -> real, places: seq<nat>) returns (places': seq<nat>)
    requires ArePlaces(n, places)
    ensures ArePlaces(Passed(cfg, n, clock), places')
  {
    var stepped := EmitAll(cfg, n.active);
    var left := OngoingPlaces(stepped);
    places' := seq(|left|, i requires 0 <= i < |left| => places[left[i]]);
    forall i | 0 <= i < |left| ensures Ongoing(stepped)[i].req == n.submitted[places'[i]] {
      assert Ongoing(stepped)[i] == stepped[left[i]] && stepped[left[i]].req == n.active[left[i]].req;
    }
  }

  lemma NextInOrder(cfg: Config, m: Machine, e: Event, places: seq<nat>) returns (places': seq<nat>)
    requires GoodNode(cfg, m.node) && Ledger(cfg, m.node) && ArePlaces(m.node, places)
    ensures ArePlaces(Next(cfg, m, e).node, places')
  {
    places' := places;
    match e
    case Submit(r) =>
    case Admit(clock) => places' := AdmittedInOrder(cfg, m.node, clock, 0, places);
    case Pass(clock) => places' := PassedInOrder(cfg, m.node, clock, places);
    case Outside(op) =>
  }

  lemma {:induction false} RunInOrder(cfg: Config, m: Machine, es: seq<Event>, places: seq<nat>) returns (places': seq<nat>)
    requires GoodNode(cfg, m.node) && Ledger(cfg, m.node) && IsRun(cfg, m, es) && ArePlaces(m.node, places)
    ensures ArePlaces(After(cfg, m, es).node, places')
  {
    if |es| == 0 {
      places' := places;
    } else {
      var before := es[..|es| - 1];
      RunBalances(cfg, m, before);
      places' := RunInOrder(cfg, m, before, places);
      places' := NextInOrder(cfg, After(cfg, m, before), es[|es| - 1], places');
    }
  }

  /** First come, first served: after any run the batch stands in the order of submission, and before
      everyone who waits. */
  lemma BatchStandsInOrder(cfg: Config, total: real, policy: string, es: seq<Event>)
    requires total >= 0.0 && IsRun(cfg, Boot(Fresh(total, policy)), es)
    ensures exists places :: ArePlaces(After(cfg, Boot(Fresh(total, policy)), es).node, places)
  {
    BootIsGood(cfg, total, policy);
    assert ArePlaces(Boot(Fresh(total, policy)).node, []);
    var places := RunInOrder(cfg, Boot(Fresh(total, policy)), es, []);
  }

  // ------------------------------------- a decode node: only the scheduler uses the pool

  ghost predicate NoOutside(es: seq<Event>) {
    forall i :: 0 <= i < |es| ==> !es[i].Outside?
  }

  /** Every block belongs to an active sequence; the counters agree with the pool's. */
  ghost predicate DecodeNode(n: Node) {
    && (forall b :: b in n.pool.blocks ==> OwnedBy(n.active, b.id))
    && n.evicted == n.pool.evictions
    && n.pool.ooms == |RejectedOf(n.closed)|
    && n.pool.allocations == |n.active| + |ServedOf(n.closed)|
  }

  ghost predicate OwnedBy(ss: seq<Seq>, id: string) {
    exists s :: s in ss && s.req.kv == id
  }

  lemma AllocatedIds(p: Pool, r: Request, t0: real, t1: real, b: Block)
    requires WellFormed(p) && r.size >= 0.0
    requires b in Allocated(p, r.kv, r.session, r.promptTokens, r.size, t0, t1).0.blocks
    ensures b in p.blocks
         || (b.id == r.kv && Allocated(p, r.kv, r.session, r.promptTokens, r.size, t0, t1).1.Placed?)
  {
    if r.size <= p.total {
      ReleaseKeeps(p, r.kv);
      MakeRoomKeeps(Released(p, r.kv), r.size);
    }
  }

  lemma {:induction false} RejectedAppend(ss: seq<Seq>, s: Seq)
    ensures RejectedOf(ss + [s]) == RejectedOf(ss) + if s.out == [OomChunk()] then [s] else []
    ensures ServedOf(ss + [s]) == ServedOf(ss) + if s.out == [OomChunk()] then [] else [s]
  {
    if |ss| == 0 {
      assert ss + [s] == [s] && [s][1..] == [];
    } else {
      assert (ss + [s])[1..] == ss[1..] + [s];
      RejectedAppend(ss[1..], s);
    }
  }

  lemma AdmitOneOwns(cfg: Config, n: Node, t0: real, t1: real)
    requires GoodNode(cfg, n) && DecodeNode(n) && |n.waiting| > 0
    ensures DecodeNode(AdmitOne(n, t0, t1))
  {
    var s := n.waiting[0];
    var r, q := s.req, AdmitOne(n, t0, t1);
    assert IsWaiting(s);
    var outcome := Allocated(n.pool, r.kv, r.session, r.promptTokens, r.size, t0, t1).1;
    AllocatedCounts(n.pool, r, t0, t1);
    RejectedAppend(n.closed, s.(out := s.out + [OomChunk()]));
    forall b | b in q.pool.blocks ensures OwnedBy(q.active, b.id) {
      AllocatedIds(n.pool, r, t0, t1, b);
      if b in n.pool.blocks {
        var o :| o in n.active && o.req.kv == b.id;
        assert o in q.active;
      } else {
        assert s in q.active;
      }
    }
  }

  lemma AllocatedCounts(p: Pool, r: Request, t0: real, t1: real)
    requires WellFormed(p) && r.size >= 0.0
    ensures var (q, outcome) := Allocated(p, r.kv, r.session, r.promptTokens, r.size, t0, t1);
      && q.evictions == p.evictions + (if outcome.Placed? then |outcome.evicted| else 0)
      && q.ooms == p.ooms + (if outcome.Placed? then 0 else 1)
      && q.allocations == p.allocations + (if outcome.Placed? then 1 else 0)
  {
    Eviction.OutOfMemoryIff(p, r.kv, r.session, r.promptTokens, r.size, t0, t1);
    if Allocated(p, r.kv, r.session, r.promptTokens, r.size, t0, t1).1.Placed? {
      Eviction.AllocateIsExact(p, r.kv, r.session, r.promptTokens, r.size, t0, t1);
    }
  }

  lemma {:induction false} AdmittedOwns(cfg: Config, n: Node, clock: nat -> real, at: nat)
    requires GoodNode(cfg, n) && DecodeNode(n)
    ensures DecodeNode(Admitted(cfg, n, clock, at))
    decreases |n.waiting|
  {
    if CanAdmit(cfg, n) {
      AdmitOneStaysGood(cfg, n, clock(at), clock(at + 1));
      AdmitOneOwns(cfg, n, clock(at), clock(at + 1));
      AdmittedOwns(cfg, AdmitOne(n, clock(at), clock(at + 1)), clock, at + 2);
    }
  }

  lemma {:induction false} TouchAllIds(p: Pool, ss: seq<Seq>, clock: nat -> real, b: Block)
    requires WellFormed(p) && b in TouchAll(p, ss, clock).blocks
    ensures exists a :: a in p.blocks && a.id == b.id && a.size == b.size
    ensures TouchAll(p, ss, clock).evictions == p.evictions && TouchAll(p, ss, clock).ooms == p.ooms
    ensures TouchAll(p, ss, clock).allocations == p.allocations
    decreases |ss|
  {
    if |ss| == 0 {
    } else {
      var k := |ss| - 1;
      var q := TouchAll(p, ss[..k], clock);
      TouchAllKeeps(p, ss[..k], clock);
      History.ApplyMembers(q, Access(ss[k].req.kv, clock(k)), b);
      if b in q.blocks {
        TouchAllIds(p, ss[..k], clock, b);
      } else {
        var a :| a in q.blocks && a.id == b.id && b == a.(accessed := clock(k));
        TouchAllIds(p, ss[..k], clock, a);
      }
    }
  }

  lemma {:induction false} TouchAllCounts(p: Pool, ss: seq<Seq>, clock: nat -> real)
    ensures var q := TouchAll(p, ss, clock);
      q.evictions == p.evictions && q.ooms == p.ooms && q.allocations == p.allocations && |q.blocks| == |p.blocks|
    decreases |ss|
  {
    if |ss| == 0 {
    } else {
      TouchAllCounts(p, ss[..|ss| - 1], clock);
    }
  }

  lemma {:induction false} FreeAllFrees(p: Pool, ss: seq<Seq>)
    requires WellFormed(p)
    ensures var q := FreeAll(p, ss);
      && (forall b :: b in q.blocks <==> b in p.blocks && !OwnedBy(ss, b.id))
      && q.evictions == p.evictions && q.ooms == p.ooms && q.allocations == p.allocations
    decreases |ss|
  {
    if |ss| == 0 {
    } else {
      ReleaseKeeps(p, ss[0].req.kv);
      FreeAllFrees(Released(p, ss[0].req.kv), ss[1..]);
      forall b | b in p.blocks ensures OwnedBy(ss, b.id) <==> b.id == ss[0].req.kv || OwnedBy(ss[1..], b.id) {
        if b.id == ss[0].req.kv {
          assert ss[0] in ss;
        } else if OwnedBy(ss[1..], b.id) {
          var s :| s in ss[1..] && s.req.kv == b.id;
          assert s in ss;
        }
      }
    }
  }

  lemma {:induction false} NoRejectionsServed(ss: seq<Seq>, ts: seq<Seq>)
    requires forall s :: s in ts ==> s.out != [OomChunk()]
    ensures RejectedOf(ss + ts) == RejectedOf(ss) && ServedOf(ss + ts) == ServedOf(ss) + ts
    decreases |ts|
  {
    if |ts| == 0 {
      assert ss + ts == ss;
    } else {
      assert ts[0] in ts;
      assert ss + ts == (ss + [ts[0]]) + ts[1..];
      RejectedAppend(ss, ts[0]);
      NoRejectionsServed(ss + [ts[0]], ts[1..]);
    }
  }

  lemma {:induction false} PartsLength(ss: seq<Seq>)
    ensures |Ongoing(ss)| + |Over(ss)| == |ss|
  {
    if |ss| == 0 {
    } else {
      PartsLength(ss[1..]);
    }
  }

  lemma PassedOwns(cfg: Config, n: Node, clock: nat -> real)
    requires GoodNode(cfg, n) && DecodeNode(n)
    ensures DecodeNode(Passed(cfg, n, clock))
  {
    var q, stepped := Passed(cfg, n, clock), EmitAll(cfg, n.active);
    var touched := TouchAll(n.pool, n.active, clock);
    TouchAllKeeps(n.pool, n.active, clock);
    TouchAllCounts(n.pool, n.active, clock);
    FreeAllFrees(touched, Over(stepped));
    EmittedParts(cfg, n.pool.total, n.active);
    forall s | s in Over(stepped) ensures s.out != [OomChunk()] {
      assert IsServed(cfg, n.pool.total, s);
      assert |Solo(cfg, s.req)| >= 2;
    }
    NoRejectionsServed(n.closed, Over(stepped));
    PartsLength(stepped);
    forall b | b in q.pool.blocks ensures OwnedBy(q.active, b.id) {
      SurvivorIsOwned(cfg, n, clock, b);
    }
  }

  lemma SurvivorIsOwned(cfg: Config, n: Node, clock: nat -> real, b: Block)
    requires WellFormed(n.pool) && (forall a :: a in n.pool.blocks ==> OwnedBy(n.active, a.id))
    requires b in Passed(cfg, n, clock).pool.blocks
    ensures OwnedBy(Passed(cfg, n, clock).active, b.id)
  {
    var stepped := EmitAll(cfg, n.active);
    TouchAllKeeps(n.pool, n.active, clock);
    FreeAllFrees(TouchAll(n.pool, n.active, clock), Over(stepped));
    TouchAllIds(n.pool, n.active, clock, b);
    var a :| a in n.pool.blocks && a.id == b.id && a.size == b.size;
    var o :| o in n.active && o.req.kv == a.id;
    var i :| 0 <= i < |n.active| && n.active[i] == o;
    assert stepped[i] in stepped && stepped[i].req.kv == b.id;
    OverMembers(stepped);
  }

  lemma NextOwns(cfg: Config, m: Machine, e: Event)
    requires GoodNode(cfg, m.node) && DecodeNode(m.node) && !e.Outside?
    ensures DecodeNode(Next(cfg, m, e).node)
  {
    match e
    case Submit(r) =>
    case Admit(clock) => AdmittedOwns(cfg, m.node, clock, 0);
    case Pass(clock) => PassedOwns(cfg, m.node, clock);
  }

  lemma {:induction false} RunOwns(cfg: Config, m: Machine, es: seq<Event>)
    requires GoodNode(cfg, m.node) && DecodeNode(m.node) && IsRun(cfg, m, es) && NoOutside(es)
    ensures DecodeNode(After(cfg, m, es).node)
  {
    if |es| == 0 {
    } else {
      var before := es[..|es| - 1];
      assert forall i :: 0 <= i < |before| ==> before[i] == es[i];
      RunStaysGood(cfg, m, before);
      RunOwns(cfg, m, before);
      NextOwns(cfg, After(cfg, m, before), es[|es| - 1]);
    }
  }

  /** No KV leak, duplicate kv ids or not: each block has an active owner, so an empty batch
      means an empty pool; and the published counters are the pool's. */
  lemma NoLeak(cfg: Config, total: real, policy: string, es: seq<Event>)
    requires total >= 0.0 && IsRun(cfg, Boot(Fresh(total, policy)), es) && NoOutside(es)
    ensures var n := After(cfg, Boot(Fresh(total, policy)), es).node;
      && DecodeNode(n)
      && (|n.active| == 0 ==> n.pool.blocks == [] && n.pool.used == 0.0)
  {
    var m := Boot(Fresh(total, policy));
    var n := After(cfg, m, es).node;
    BootIsGood(cfg, total, policy);
    RunStaysGood(cfg, m, es);
    RunOwns(cfg, m, es);
    if |n.active| == 0 {
      assert forall i :: 0 <= i < |n.pool.blocks| ==> n.pool.blocks[i] in n.pool.blocks;
    }
  }
}
