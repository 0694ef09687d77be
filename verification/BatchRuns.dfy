/** The scheduler loop as a state machine, and what every interleaving of submits, admits,
    passes and outside pool calls does to a request's stream. */
module BatchRuns {
  import opened Prelude
  import opened MemorySim
  import Eviction
  import opened PoolRuns
  import opened Batching

  /** `sleeping` is the point between `_admit` and the token pass, where submits may land. */
  datatype Machine = Machine(node: Node, sleeping: bool)

  datatype Event =
    | Submit(req: Request)
    | Admit(clock: nat -> real)
    | Pass(clock: nat -> real)
    | Outside(op: Op)

  ghost predicate Enabled(m: Machine, e: Event) {
    match e
    case Submit(r) => r.id !in Known(m.node) && r.size >= 0.0
    case Admit(_) => !m.sleeping
    case Pass(_) => m.sleeping
    case Outside(op) => Legal(op)
  }

  function Next(cfg: Config, m: Machine, e: Event): Machine {
    match e
    case Submit(r) => m.(node := Submitted(m.node, r))
    case Admit(clock) => var n := Admitted(cfg, m.node, clock, 0); Machine(n, |n.active| > 0)
    case Pass(clock) => Machine(Passed(cfg, m.node, clock), false)
    case Outside(op) => m.(node := m.node.(pool := Apply(m.node.pool, op)))
  }

  function After(cfg: Config, m: Machine, es: seq<Event>): Machine {
    if |es| == 0 then m else Next(cfg, After(cfg, m, es[..|es| - 1]), es[|es| - 1])
  }

  ghost predicate IsRun(cfg: Config, m: Machine, es: seq<Event>) {
    |es| > 0 ==>
      var before := es[..|es| - 1];
      IsRun(cfg, m, before) && Enabled(After(cfg, m, before), es[|es| - 1])
  }

  function Boot(pool: Pool): Machine {
    Machine(Node(pool, [], [], [], [], 0, 0), false)
  }

  // ------------------------------------------------------- the stream of one request

  /** How many tokens a request is owed: the check follows the increment, so at least one. */
  function Need(r: Request): nat {
    if r.maxTokens > 1 then r.maxTokens else 1
  }

  /** What decoding a request alone gives. */
  function Solo(cfg: Config, r: Request): (chunks: seq<Chunk>)
    ensures |chunks| == Need(r) + 1
  {
    seq(Need(r) + 1, i requires 0 <= i <= Need(r) =>
      if i < Need(r) then Chunk(cfg.model(r.session, r.promptTokens + i), i, None)
      else Chunk("", Need(r), Some("length")))
  }

  ghost predicate IsWaiting(s: Seq) {
    s == NewSeq(s.req) && s.req.size >= 0.0
  }

  ghost predicate IsDecoding(cfg: Config, total: real, s: Seq) {
    && 0 <= s.generated < Need(s.req)
    && s.out == Solo(cfg, s.req)[..s.generated]
    && 0.0 <= s.req.size <= total
  }

  ghost predicate IsServed(cfg: Config, total: real, s: Seq) {
    s.generated == Need(s.req) && s.out == Solo(cfg, s.req) && 0.0 <= s.req.size <= total
  }

  ghost predicate IsRejected(total: real, policy: string, s: Seq) {
    s.generated == 0 && s.out == [OomChunk()] && (policy != "none" ==> s.req.size > total)
  }

  ghost predicate IsClosed(cfg: Config, pool: Pool, s: Seq) {
    IsServed(cfg, pool.total, s) || IsRejected(pool.total, pool.policy, s)
  }

  ghost predicate GoodNode(cfg: Config, n: Node) {
    && WellFormed(n.pool)
    && Unique(n)
    && (forall s :: s in n.waiting ==> IsWaiting(s))
    && (forall s :: s in n.active ==> IsDecoding(cfg, n.pool.total, s))
    && (forall s :: s in n.closed ==> IsClosed(cfg, n.pool, s))
  }

  ghost predicate SamePool(n: Node, n': Node) {
    n'.pool.total == n.pool.total && n'.pool.policy == n.pool.policy
  }

  lemma SubmittedStaysGood(cfg: Config, n: Node, r: Request)
    requires GoodNode(cfg, n) && r.id !in Known(n) && r.size >= 0.0
    ensures GoodNode(cfg, Submitted(n, r)) && SamePool(n, Submitted(n, r))
  {
    SubmittedKnows(n, r);
  }

  /** The head of the queue, wherever it goes. */
  lemma AdmitOneLands(cfg: Config, n: Node, t0: real, t1: real)
    requires GoodNode(cfg, n) && |n.waiting| > 0
    ensures var q, s := AdmitOne(n, t0, t1), n.waiting[0];
      && SamePool(n, q) && WellFormed(q.pool)
      && (q.active == n.active || (q.active == n.active + [s] && IsDecoding(cfg, n.pool.total, s)))
      && (q.closed == n.closed
        || exists t :: q.closed == n.closed + [t] && t.req == s.req && IsRejected(n.pool.total, n.pool.policy, t))
  {
    var s := n.waiting[0];
    var r := s.req;
    assert IsWaiting(s);
    AllocateKeeps(n.pool, r.kv, r.session, r.promptTokens, r.size, t0, t1);
    Eviction.OutOfMemoryIff(n.pool, r.kv, r.session, r.promptTokens, r.size, t0, t1);
    if Allocated(n.pool, r.kv, r.session, r.promptTokens, r.size, t0, t1).1.OutOfMemory? {
      assert IsRejected(n.pool.total, n.pool.policy, s.(out := s.out + [OomChunk()]));
    } else {
      assert Solo(cfg, r)[..0] == [];
    }
  }

  /** What admission asks of the pool, and what comes of it: a block of the request's size under its
      kv id and for its session, or one oom chunk. */
  lemma AdmissionReserves(n: Node, t0: real, t1: real)
    requires Accounted(n.pool) && |n.waiting| > 0
    ensures var q, r := AdmitOne(n, t0, t1), n.waiting[0].req;
      if r.size > n.pool.total || (n.pool.policy == "none" && Eviction.BaseUse(n.pool, r.kv) + r.size > n.pool.total)
      then (
        && q.active == n.active
        && q.closed == n.closed + [Seq(r, n.waiting[0].generated, n.waiting[0].out + [Chunk("", 0, Some("oom"))])])
      else (
        && q.active == n.active + [n.waiting[0]] && q.closed == n.closed && |q.pool.blocks| > 0
        && q.pool.blocks[|q.pool.blocks| - 1] == Block(r.kv, r.session, r.promptTokens, r.size, t0, t1))
  {
    var r := n.waiting[0].req;
    Eviction.OutOfMemoryIff(n.pool, r.kv, r.session, r.promptTokens, r.size, t0, t1);
  }

  lemma AdmitOneStaysGood(cfg: Config, n: Node, t0: real, t1: real)
    requires GoodNode(cfg, n) && |n.waiting| > 0
    ensures GoodNode(cfg, AdmitOne(n, t0, t1)) && SamePool(n, AdmitOne(n, t0, t1))
  {
    AdmitOneLands(cfg, n, t0, t1);
    assert Unique(AdmitOne(n, t0, t1)) by {
      AdmitOneKnows(n, t0, t1);
    }
  }

  lemma {:induction false} AdmittedStaysGood(cfg: Config, n: Node, clock: nat -> real, at: nat)
    requires GoodNode(cfg, n)
    ensures GoodNode(cfg, Admitted(cfg, n, clock, at)) && SamePool(n, Admitted(cfg, n, clock, at))
    decreases |n.waiting|
  {
    if CanAdmit(cfg, n) {
      AdmitOneStaysGood(cfg, n, clock(at), clock(at + 1));
      AdmittedStaysGood(cfg, AdmitOne(n, clock(at), clock(at + 1)), clock, at + 2);
    }
  }

  /** One token of the solo stream, and its end exactly with the last one. */
  lemma EmitFollowsSolo(cfg: Config, total: real, s: Seq)
    requires IsDecoding(cfg, total, s)
    ensures var s' := Emit(cfg, s);
      && s'.req == s.req && s'.generated == s.generated + 1
      && (Finished(s') <==> s'.generated == Need(s.req))
      && (if Finished(s') then IsServed(cfg, total, s') else IsDecoding(cfg, total, s'))
  {
    var g, solo := s.generated, Solo(cfg, s.req);
    assert solo[..g + 1] == solo[..g] + [solo[g]];
    if g + 1 == Need(s.req) {
      assert solo == solo[..g + 1] + [solo[g + 1]];
    }
  }

  lemma {:induction false} TouchAllKeeps(p: Pool, ss: seq<Seq>, clock: nat -> real)
    requires WellFormed(p)
    ensures var q := TouchAll(p, ss, clock);
      WellFormed(q) && q.total == p.total && q.policy == p.policy
    decreases |ss|
  {
    if |ss| == 0 {
    } else {
      TouchAllKeeps(p, ss[..|ss| - 1], clock);
      TouchKeeps(TouchAll(p, ss[..|ss| - 1], clock), ss[|ss| - 1].req.kv, clock(|ss| - 1));
    }
  }

  lemma TouchedBlock(p: Pool, id: string, t: real, i: nat)
    requires Distinct(p.blocks) && i < |p.blocks|
    ensures var q := Touched(p, id, t);
      && Distinct(q.blocks) && |q.blocks| == |p.blocks| && q.used == p.used
      && q.blocks[i] == if p.blocks[i].id == id then p.blocks[i].(accessed := t) else p.blocks[i]
  {
    FindAt(p.blocks, i);
  }

  ghost predicate IsLastUser(ss: seq<Seq>, kv: string, j: nat) {
    j < |ss| && ss[j].req.kv == kv && forall k :: j < k < |ss| ==> ss[k].req.kv != kv
  }

  /** The block after the touches of a pass: it takes the clock reading of the last active sequence
      that uses it, or stays as it is if none does. */
  ghost predicate IsTouched(b: Block, ss: seq<Seq>, clock: nat -> real, b': Block) {
    if forall s :: s in ss ==> s.req.kv != b.id then b' == b
    else exists j :: IsLastUser(ss, b.id, j) && b' == b.(accessed := clock(j))
  }

  lemma TouchedNext(b: Block, ss: seq<Seq>, clock: nat -> real, b': Block)
    requires |ss| > 0 && IsTouched(b, ss[..|ss| - 1], clock, b')
    ensures IsTouched(b, ss, clock, if ss[|ss| - 1].req.kv == b.id then b.(accessed := clock(|ss| - 1)) else b')
  {
    var n := |ss| - 1;
    assert forall s :: s in ss <==> s in ss[..n] || s == ss[n];
    if ss[n].req.kv == b.id {
      assert IsLastUser(ss, b.id, n);
    } else if s :| s in ss[..n] && s.req.kv == b.id {
      var j :| IsLastUser(ss[..n], b.id, j) && b' == b.(accessed := clock(j));
      assert IsLastUser(ss, b.id, j);
    }
  }

  lemma {:induction false} TouchAllTimes(p: Pool, ss: seq<Seq>, clock: nat -> real, i: nat)
    requires Distinct(p.blocks) && i < |p.blocks|
    ensures var q := TouchAll(p, ss, clock);
      && Distinct(q.blocks) && |q.blocks| == |p.blocks| && q.used == p.used
      && q.blocks[i].id == p.blocks[i].id && IsTouched(p.blocks[i], ss, clock, q.blocks[i])
  {
    if |ss| == 0 {
    } else {
      var n := |ss| - 1;
      var before := TouchAll(p, ss[..n], clock);
      TouchAllTimes(p, ss[..n], clock, i);
      TouchedBlock(before, ss[n].req.kv, clock(n), i);
      TouchedNext(p.blocks[i], ss, clock, before.blocks[i]);
    }
  }

  lemma {:induction false} FreeAllKeeps(p: Pool, ss: seq<Seq>)
    requires WellFormed(p)
    ensures var q := FreeAll(p, ss);
      WellFormed(q) && q.total == p.total && q.policy == p.policy
    decreases |ss|
  {
    if |ss| == 0 {
    } else {
      ReleaseKeeps(p, ss[0].req.kv);
      FreeAllKeeps(Released(p, ss[0].req.kv), ss[1..]);
    }
  }

  /** The list after a pass, parted into those who go on and those who are done. */
  lemma EmittedParts(cfg: Config, total: real, ss: seq<Seq>)
    requires forall s :: s in ss ==> IsDecoding(cfg, total, s)
    ensures forall s :: s in Ongoing(EmitAll(cfg, ss)) ==> IsDecoding(cfg, total, s)
    ensures forall s :: s in Over(EmitAll(cfg, ss)) ==> IsServed(cfg, total, s)
  {
    var stepped := EmitAll(cfg, ss);
    forall s | s in stepped
      ensures if Finished(s) then IsServed(cfg, total, s) else IsDecoding(cfg, total, s)
    {
      var i :| 0 <= i < |stepped| && stepped[i] == s;
      assert ss[i] in ss;
      EmitFollowsSolo(cfg, total, ss[i]);
    }
    OverMembers(stepped);
  }

  lemma PassedPool(cfg: Config, n: Node, clock: nat -> real)
    requires WellFormed(n.pool)
    ensures WellFormed(Passed(cfg, n, clock).pool) && SamePool(n, Passed(cfg, n, clock))
  {
    TouchAllKeeps(n.pool, n.active, clock);
    FreeAllKeeps(TouchAll(n.pool, n.active, clock), Over(EmitAll(cfg, n.active)));
  }

  lemma PassedStaysGood(cfg: Config, n: Node, clock: nat -> real)
    requires GoodNode(cfg, n)
    ensures GoodNode(cfg, Passed(cfg, n, clock)) && SamePool(n, Passed(cfg, n, clock))
  {
    var stepped, q := EmitAll(cfg, n.active), Passed(cfg, n, clock);
    PassedPool(cfg, n, clock);
    EmittedParts(cfg, n.pool.total, n.active);
    assert Unique(q) by {
      PassedKnows(cfg, n, clock);
    }
    forall s | s in q.closed ensures IsClosed(cfg, q.pool, s) {
      assert s in n.closed || s in Over(stepped);
    }
  }

  lemma NextStaysGood(cfg: Config, m: Machine, e: Event)
    requires GoodNode(cfg, m.node) && Enabled(m, e)
    ensures GoodNode(cfg, Next(cfg, m, e).node) && SamePool(m.node, Next(cfg, m, e).node)
  {
    match e
    case Submit(r) => SubmittedStaysGood(cfg, m.node, r);
    case Admit(clock) => AdmittedStaysGood(cfg, m.node, clock, 0);
    case Pass(clock) => PassedStaysGood(cfg, m.node, clock);
    case Outside(op) =>
      ApplyKeeps(m.node.pool, op);
      assert Known(Next(cfg, m, e).node) == Known(m.node);
  }

  lemma {:induction false} RunStaysGood(cfg: Config, m: Machine, es: seq<Event>)
    requires GoodNode(cfg, m.node) && IsRun(cfg, m, es)
    ensures GoodNode(cfg, After(cfg, m, es).node) && SamePool(m.node, After(cfg, m, es).node)
  {
    if |es| == 0 {
    } else {
      var before := es[..|es| - 1];
      RunStaysGood(cfg, m, before);
      NextStaysGood(cfg, After(cfg, m, before), es[|es| - 1]);
    }
  }

  lemma BootIsGood(cfg: Config, total: real, policy: string)
    requires total >= 0.0
    ensures GoodNode(cfg, Boot(Fresh(total, policy)).node)
  {
  }

  function Everyone(n: Node): seq<Seq> {
    n.waiting + n.active + n.closed
  }

  lemma GoodStreams(cfg: Config, n: Node, s: Seq)
    requires GoodNode(cfg, n) && s in Everyone(n)
    ensures s.out <= Solo(cfg, s.req) || s.out == [OomChunk()]
    ensures n.pool.policy != "none" && s.out != [] ==> (s.out == [OomChunk()] <==> s.req.size > n.pool.total)
    ensures s in n.closed ==> s.out == Solo(cfg, s.req) || s.out == [OomChunk()]
  {
    assert Solo(cfg, s.req)[0] != OomChunk();
    if s in n.closed {
      assert IsClosed(cfg, n.pool, s);
    } else if s in n.active {
      assert IsDecoding(cfg, n.pool.total, s);
    } else {
      assert IsWaiting(s);
    }
  }

  /** Batching preserves meaning. In every run each request's log is a prefix of what it gets
      alone, or a single oom chunk; if the pool can evict, oom means exactly "larger than the pool". */
  lemma StreamsAreSolo(cfg: Config, total: real, policy: string, es: seq<Event>, s: Seq)
    requires total >= 0.0 && IsRun(cfg, Boot(Fresh(total, policy)), es)
    requires s in Everyone(After(cfg, Boot(Fresh(total, policy)), es).node)
    ensures s.out <= Solo(cfg, s.req) || s.out == [OomChunk()]
    ensures policy != "none" && s.out != [] ==> (s.out == [OomChunk()] <==> s.req.size > total)
    ensures s in After(cfg, Boot(Fresh(total, policy)), es).node.closed ==>
      s.out == Solo(cfg, s.req) || s.out == [OomChunk()]
  {
    var m := Boot(Fresh(total, policy));
    BootIsGood(cfg, total, policy);
    RunStaysGood(cfg, m, es);
    GoodStreams(cfg, After(cfg, m, es).node, s);
  }

  /** So many tokens of the stream of a call: the i-th for position promptTokens + i. */
  ghost predicate TokensOfCall(cfg: Config, w: DecodeRequest, out: seq<Chunk>, n: int) {
    0 <= n <= |out| && forall i :: 0 <= i < n ==> out[i] == Chunk(cfg.model(w.session, w.promptTokens + i), i, None)
  }

  lemma PrefixOfCall(cfg: Config, r: Request, w: DecodeRequest, n: int)
    requires r.session == w.session && r.promptTokens == w.promptTokens && 0 <= n <= Need(r)
    ensures TokensOfCall(cfg, w, Solo(cfg, r)[..n], n) && TokensOfCall(cfg, w, Solo(cfg, r), n)
    ensures Solo(cfg, r)[Need(r)] == Chunk("", Need(r), Some("length"))
  {
  }

  /** The same said in the fields of the call: with limit m, its own or else the default, a request is
      sent max(1, m) tokens and then one length chunk; as far as it has got while it is waiting or
      active, and all of it, or one oom chunk, once it is closed. */
  lemma StreamOfCall(cfg: Config, total: real, policy: string, es: seq<Event>, s: Seq, w: DecodeRequest)
    requires total >= 0.0 && IsRun(cfg, Boot(Fresh(total, policy)), es)
    requires s in Everyone(After(cfg, Boot(Fresh(total, policy)), es).node)
    requires s.req == Request(s.req.id, w.session, w.kv, if w.maxTokens == 0 then cfg.defaultTokens else w.maxTokens,
                              w.size, w.promptTokens)
    ensures var m := if w.maxTokens == 0 then cfg.defaultTokens else w.maxTokens;
      var n := if m > 1 then m else 1;
      if s in After(cfg, Boot(Fresh(total, policy)), es).node.closed
      then (
        || (TokensOfCall(cfg, w, s.out, n) && |s.out| == n + 1 && s.out[n] == Chunk("", n, Some("length")) && w.size <= total)
        || (s.out == [Chunk("", 0, Some("oom"))] && (policy != "none" ==> w.size > total)))
      else TokensOfCall(cfg, w, s.out, s.generated) && |s.out| == s.generated < n
  {
    var m := Boot(Fresh(total, policy));
    BootIsGood(cfg, total, policy);
    RunStaysGood(cfg, m, es);
    var n := After(cfg, m, es).node;
    if s in n.closed {
      assert IsClosed(cfg, n.pool, s);
      PrefixOfCall(cfg, s.req, w, Need(s.req));
    } else if s in n.active {
      assert IsDecoding(cfg, n.pool.total, s);
      PrefixOfCall(cfg, s.req, w, s.generated);
    } else {
      assert IsWaiting(s);
    }
  }

  /** Scheduling never changes a stream: two runs on pools of one size, under any evicting
      policies, batch caps and interleavings, give comparable logs, and equal ones once closed. */
  lemma SchedulingIsInvisible(cfg: Config, cfg': Config, total: real, policy: string, policy': string,
                              es: seq<Event>, es': seq<Event>, s: Seq, s': Seq)
    requires total >= 0.0 && policy != "none" && policy' != "none" && cfg.model == cfg'.model
    requires IsRun(cfg, Boot(Fresh(total, policy)), es) && IsRun(cfg', Boot(Fresh(total, policy')), es')
    requires var n, n' := After(cfg, Boot(Fresh(total, policy)), es).node, After(cfg', Boot(Fresh(total, policy')), es').node;
      s in Everyone(n) && s' in Everyone(n') && s.req == s'.req
    ensures s.out <= s'.out || s'.out <= s.out
    ensures var n, n' := After(cfg, Boot(Fresh(total, policy)), es).node, After(cfg', Boot(Fresh(total, policy')), es').node;
      s in n.closed && s' in n'.closed ==> s.out == s'.out
  {
    StreamsAreSolo(cfg, total, policy, es, s);
    StreamsAreSolo(cfg', total, policy', es', s');
    assert Solo(cfg, s.req) == Solo(cfg', s.req);
  }
}
