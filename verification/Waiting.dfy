/** No starvation, with a number, and how long an admitted request takes. */
module Waiting {
  import opened Batching
  import opened BatchRuns
  import BatchLedger
  import Timing

  function Remaining(s: Seq): int {
    Need(s.req) - s.generated
  }

  function Work(ss: seq<Seq>): int {
    if |ss| == 0 then 0 else Remaining(ss[0]) + Work(ss[1..])
  }

  /** The token work that is active or stands before `id` in the queue. */
  function Ahead(n: Node, id: string): int {
    Work(n.active) + Work(n.waiting[..FindSeq(n.waiting, id)])
  }

  predicate Queued(n: Node, id: string) {
    FindSeq(n.waiting, id) < |n.waiting|
  }

  function Passes(es: seq<Event>): nat {
    if |es| == 0 then 0 else Passes(es[..|es| - 1]) + if es[|es| - 1].Pass? then 1 else 0
  }

  lemma {:induction false} WorkConcat(ss: seq<Seq>, ts: seq<Seq>)
    ensures Work(ss + ts) == Work(ss) + Work(ts)
  {
    if |ss| == 0 {
      assert ss + ts == ts;
    } else {
      assert (ss + ts)[1..] == ss[1..] + ts;
      WorkConcat(ss[1..], ts);
    }
  }

  lemma {:induction false} WorkAtLeast(cfg: Config, total: real, ss: seq<Seq>)
    requires forall s :: s in ss ==> IsDecoding(cfg, total, s)
    ensures Work(ss) >= |ss|
  {
    if |ss| == 0 {
    } else {
      assert ss[0] in ss;
      WorkAtLeast(cfg, total, ss[1..]);
    }
  }

  lemma {:induction false} WaitingWork(ss: seq<Seq>)
    requires forall s :: s in ss ==> IsWaiting(s)
    ensures Work(ss) >= 0
  {
    if |ss| == 0 {
    } else {
      assert ss[0] in ss;
      WaitingWork(ss[1..]);
    }
  }

  /** A pass takes one token off everyone; whoever is done owes nothing. */
  lemma {:induction false} EmittedWork(cfg: Config, total: real, ss: seq<Seq>)
    requires forall s :: s in ss ==> IsDecoding(cfg, total, s)
    ensures Work(Ongoing(EmitAll(cfg, ss))) == Work(ss) - |ss|
  {
    if |ss| == 0 {
    } else {
      assert ss[0] in ss;
      EmitFollowsSolo(cfg, total, ss[0]);
      EmittedWork(cfg, total, ss[1..]);
      var stepped := EmitAll(cfg, ss);
      assert stepped[1..] == EmitAll(cfg, ss[1..]);
      if Finished(stepped[0]) {
        assert Ongoing(stepped) == Ongoing(stepped[1..]);
      } else {
        assert Ongoing(stepped)[1..] == Ongoing(stepped[1..]);
      }
    }
  }

  lemma {:induction false} FindFirst(ss: seq<Seq>, s: Seq, id: string)
    requires FindSeq(ss, id) < |ss|
    ensures FindSeq(ss + [s], id) == FindSeq(ss, id)
    ensures (ss + [s])[..FindSeq(ss, id)] == ss[..FindSeq(ss, id)]
  {
    if ss[0].req.id != id {
      assert (ss + [s])[1..] == ss[1..] + [s];
      FindFirst(ss[1..], s, id);
    }
  }

  lemma QueuedBehind(n: Node, id: string)
    requires Unique(n) && |n.waiting| > 0 && FindSeq(n.waiting[1..], id) < |n.waiting| - 1
    ensures n.waiting[0].req.id != id
  {
    UniqueLists(n);
    assert n.waiting[FindSeq(n.waiting[1..], id) + 1].req.id == id;
  }

  lemma SubmitAhead(n: Node, r: Request, id: string)
    requires r.id != id && Queued(Submitted(n, r), id)
    ensures Queued(n, id) && Ahead(Submitted(n, r), id) == Ahead(n, id)
  {
    var k := FindSeq(Submitted(n, r).waiting, id);
    assert k < |n.waiting| && n.waiting[k].req.id == id;
    FindFirst(n.waiting, NewSeq(r), id);
  }

  lemma AdmitOneAhead(cfg: Config, n: Node, t0: real, t1: real, id: string)
    requires GoodNode(cfg, n) && |n.waiting| > 0 && Queued(n, id) && Queued(AdmitOne(n, t0, t1), id)
    ensures Ahead(AdmitOne(n, t0, t1), id) <= Ahead(n, id)
  {
    var s, q := n.waiting[0], AdmitOne(n, t0, t1);
    assert IsWaiting(s);
    QueuedBehind(n, id);
    var k := FindSeq(n.waiting, id);
    assert n.waiting[..k][1..] == q.waiting[..k - 1];
    WorkConcat(n.active, [s]);
    assert Work([s]) == Remaining(s);
  }

  lemma {:induction false} AdmittedAhead(cfg: Config, n: Node, clock: nat -> real, at: nat, id: string)
    requires GoodNode(cfg, n) && Queued(Admitted(cfg, n, clock, at), id)
    ensures Queued(n, id) && Ahead(Admitted(cfg, n, clock, at), id) <= Ahead(n, id)
    decreases |n.waiting|
  {
    if CanAdmit(cfg, n) {
      var q := AdmitOne(n, clock(at), clock(at + 1));
      AdmitOneStaysGood(cfg, n, clock(at), clock(at + 1));
      AdmittedAhead(cfg, q, clock, at + 2, id);
      assert n.waiting[FindSeq(q.waiting, id) + 1].req.id == id;
      AdmitOneAhead(cfg, n, clock(at), clock(at + 1), id);
    }
  }

  lemma PassedAhead(cfg: Config, n: Node, clock: nat -> real, id: string)
    requires GoodNode(cfg, n)
    ensures Ahead(Passed(cfg, n, clock), id) == Ahead(n, id) - |n.active|
  {
    EmittedWork(cfg, n.pool.total, n.active);
  }

  /** What full passes take off the work, cap * passes, by counting. */
  function Spent(cap: int, passes: nat): int {
    if passes == 0 then 0 else Spent(cap, passes - 1) + cap
  }

  lemma {:induction false} SpentIs(cap: int, passes: nat)
    ensures Spent(cap, passes) == cap * passes
  {
    if passes > 0 {
      SpentIs(cap, passes - 1);
      assert cap * passes == cap * (passes - 1) + cap;
    }
  }

  /** The state of the argument after `passes` passes: work done plus work ahead has not grown,
      and a batch of `size` formed while id was left waiting is full. `late` says that a pass was
      already in flight at the start. */
  ghost predicate Paid(cap: int, budget: int, late: bool, passes: nat, ahead: int, size: int, sleeping: bool) {
    && Spent(cap, passes) + ahead <= budget + (if late then cap else 0)
    && (sleeping ==> size >= cap || (late && passes == 0))
    && (late && passes == 0 ==> ahead <= budget)
  }

  /** What matters of a machine: the work ahead of id, the batch, and whether a pass is due. */
  datatype Scene = Scene(ahead: int, size: int, sleeping: bool)

  function SceneOf(m: Machine, id: string): Scene {
    Scene(Ahead(m.node, id), |m.node.active|, m.sleeping)
  }

  ghost predicate PaidAt(cap: int, start: Scene, now: Scene, passes: nat) {
    Paid(cap, start.ahead, start.sleeping, passes, now.ahead, now.size, now.sleeping)
  }

  /** One step, seen from a request that is still queued after it. */
  ghost predicate Moves(cap: int, pass: bool, a: Scene, b: Scene) {
    && (pass ==> a.sleeping && !b.sleeping && b.ahead == a.ahead - a.size)
    && (!pass ==> b.ahead <= a.ahead)
    && (!pass && b.sleeping ==> b.size >= cap || (a.sleeping && b.size == a.size))
  }

  lemma NextMoves(cfg: Config, m: Machine, e: Event, id: string)
    requires cfg.cap >= 1 && GoodNode(cfg, m.node) && Enabled(m, e)
    requires Queued(Next(cfg, m, e).node, id) && (e.Submit? ==> e.req.id != id)
    ensures Queued(m.node, id) && Moves(cfg.cap, e.Pass?, SceneOf(m, id), SceneOf(Next(cfg, m, e), id))
  {
    match e {
      case Submit(r) => SubmitAhead(m.node, r, id);
      case Admit(clock) =>
        AdmittedAhead(cfg, m.node, clock, 0, id);
        BatchLedger.AdmitFills(cfg, m.node, clock, 0);
      case Pass(clock) => PassedAhead(cfg, m.node, clock, id);
      case Outside(op) =>
    }
  }

  lemma NextPaid(cap: int, start: Scene, a: Scene, b: Scene, passes: nat, pass: bool)
    requires cap >= 1 && a.size >= 0 && PaidAt(cap, start, a, passes) && Moves(cap, pass, a, b)
    ensures PaidAt(cap, start, b, passes + if pass then 1 else 0)
  {
    assert Spent(cap, passes + 1) == Spent(cap, passes) + cap;
    assert Spent(cap, 0) == 0;
  }

  ghost predicate NeverResubmitted(es: seq<Event>, id: string) {
    forall i :: 0 <= i < |es| && es[i].Submit? ==> es[i].req.id != id
  }

  // The same along a run, by position.

  function SceneAt(cfg: Config, m: Machine, es: seq<Event>, id: string, n: nat): Scene
    requires n <= |es|
  {
    SceneOf(After(cfg, m, es[..n]), id)
  }

  function PassesTo(es: seq<Event>, n: nat): nat
    requires n <= |es|
  {
    if n == 0 then 0 else PassesTo(es, n - 1) + if es[n - 1].Pass? then 1 else 0
  }

  lemma {:induction false} PassesToAll(es: seq<Event>, n: nat)
    requires n <= |es|
    ensures PassesTo(es, n) == Passes(es[..n])
  {
    if n == 0 {
    } else {
      PassesToAll(es, n - 1);
      assert es[..n][..n - 1] == es[..n - 1];
    }
  }

  lemma {:induction false} RunTo(cfg: Config, m: Machine, es: seq<Event>, n: nat)
    requires n <= |es| && IsRun(cfg, m, es)
    ensures IsRun(cfg, m, es[..n])
    decreases |es|
  {
    if n == |es| {
      assert es[..n] == es;
    } else {
      var before := es[..|es| - 1];
      RunTo(cfg, m, before, n);
      assert before[..n] == es[..n];
    }
  }

  lemma MovesAt(cfg: Config, m: Machine, es: seq<Event>, id: string, n: nat)
    requires cfg.cap >= 1 && GoodNode(cfg, m.node) && IsRun(cfg, m, es) && NeverResubmitted(es, id)
    requires n < |es| && Queued(After(cfg, m, es[..n + 1]).node, id)
    ensures Queued(After(cfg, m, es[..n]).node, id)
    ensures Moves(cfg.cap, es[n].Pass?, SceneAt(cfg, m, es, id, n), SceneAt(cfg, m, es, id, n + 1))
  {
    RunTo(cfg, m, es, n);
    RunTo(cfg, m, es, n + 1);
    assert es[..n + 1][..n] == es[..n];
    RunStaysGood(cfg, m, es[..n]);
    NextMoves(cfg, After(cfg, m, es[..n]), es[n], id);
  }

  lemma {:induction false} QueuedThroughout(cfg: Config, m: Machine, es: seq<Event>, id: string, n: nat)
    requires cfg.cap >= 1 && GoodNode(cfg, m.node) && IsRun(cfg, m, es) && NeverResubmitted(es, id)
    requires n <= |es| && Queued(After(cfg, m, es).node, id)
    ensures Queued(After(cfg, m, es[..n]).node, id)
    decreases |es| - n
  {
    if n == |es| {
      assert es[..n] == es;
    } else {
      QueuedThroughout(cfg, m, es, id, n + 1);
      MovesAt(cfg, m, es, id, n);
    }
  }

  lemma {:induction false} PaidAlong(cap: int, scenes: seq<Scene>, es: seq<Event>, n: nat)
    requires cap >= 1 && |scenes| == |es| + 1 && n <= |es| && PaidAt(cap, scenes[0], scenes[0], 0)
    requires forall i :: 0 <= i < |es| ==> scenes[i].size >= 0 && Moves(cap, es[i].Pass?, scenes[i], scenes[i + 1])
    ensures PaidAt(cap, scenes[0], scenes[n], PassesTo(es, n))
  {
    if n == 0 {
    } else {
      PaidAlong(cap, scenes, es, n - 1);
      NextPaid(cap, scenes[0], scenes[n - 1], scenes[n], PassesTo(es, n - 1), es[n - 1].Pass?);
    }
  }

  lemma RunPaid(cfg: Config, m: Machine, es: seq<Event>, id: string)
    requires cfg.cap >= 1 && GoodNode(cfg, m.node) && IsRun(cfg, m, es) && NeverResubmitted(es, id)
    requires Queued(After(cfg, m, es).node, id)
    ensures Queued(m.node, id)
    ensures PaidAt(cfg.cap, SceneOf(m, id), SceneOf(After(cfg, m, es), id), Passes(es))
  {
    var scenes := seq(|es| + 1, i requires 0 <= i <= |es| => SceneAt(cfg, m, es, id, i));
    forall i | 0 <= i < |es| ensures Moves(cfg.cap, es[i].Pass?, scenes[i], scenes[i + 1]) {
      QueuedThroughout(cfg, m, es, id, i + 1);
      MovesAt(cfg, m, es, id, i);
    }
    QueuedThroughout(cfg, m, es, id, 0);
    assert es[..0] == [] && es[..|es|] == es;
    PassesToAll(es, |es|);
    PaidAlong(cfg.cap, scenes, es, |es|);
  }

  lemma RunAhead(cfg: Config, m: Machine, es: seq<Event>, id: string)
    requires GoodNode(cfg, m.node) && IsRun(cfg, m, es)
    ensures SceneOf(After(cfg, m, es), id).ahead >= SceneOf(After(cfg, m, es), id).size >= 0
  {
    RunStaysGood(cfg, m, es);
    AheadAtLeast(cfg, After(cfg, m, es).node, id);
  }

  lemma Settle(cap: int, start: Scene, now: Scene, passes: nat)
    requires cap >= 1 && PaidAt(cap, start, now, passes) && now.ahead >= now.size >= 0
    ensures cap * passes <= start.ahead + if start.sleeping then cap else 0
    ensures now.sleeping && !start.sleeping ==> cap * (passes + 1) <= start.ahead
  {
    SpentIs(cap, passes);
    SpentIs(cap, passes + 1);
  }

  lemma RunSettles(cfg: Config, m: Machine, es: seq<Event>, id: string) returns (start: Scene, now: Scene, passes: nat)
    requires cfg.cap >= 1 && GoodNode(cfg, m.node) && IsRun(cfg, m, es) && NeverResubmitted(es, id)
    requires Queued(After(cfg, m, es).node, id)
    ensures Queued(m.node, id) && passes == Passes(es)
    ensures start == SceneOf(m, id) && now == SceneOf(After(cfg, m, es), id)
    ensures cfg.cap * passes <= start.ahead + if start.sleeping then cfg.cap else 0
    ensures now.sleeping && !start.sleeping ==> cfg.cap * (passes + 1) <= start.ahead
  {
    start, now, passes := SceneOf(m, id), SceneOf(After(cfg, m, es), id), Passes(es);
    RunPaid(cfg, m, es, id);
    RunAhead(cfg, m, es, id);
    Settle(cfg.cap, start, now, passes);
  }

  /** No starvation. While a request stands in the queue, the passes P since then satisfy
      cap * P <= work ahead of it, plus one pass that may have been in flight; and when yet another
      batch has been formed without it, that batch's pass is paid for as well. */
  lemma NoStarvation(cfg: Config, m: Machine, es: seq<Event>, id: string)
    requires cfg.cap >= 1 && GoodNode(cfg, m.node) && IsRun(cfg, m, es) && NeverResubmitted(es, id)
    requires Queued(After(cfg, m, es).node, id)
    ensures var late := if m.sleeping then cfg.cap else 0;
      && Queued(m.node, id)
      && cfg.cap * Passes(es) <= Ahead(m.node, id) + late
      && (After(cfg, m, es).sleeping && !m.sleeping ==> cfg.cap * (Passes(es) + 1) <= Ahead(m.node, id))
  {
    var start, now, passes := RunSettles(cfg, m, es, id);
  }

  lemma AheadAtLeast(cfg: Config, n: Node, id: string)
    requires GoodNode(cfg, n)
    ensures Ahead(n, id) >= |n.active|
  {
    WorkAtLeast(cfg, n.pool.total, n.active);
    WaitingWork(n.waiting[..FindSeq(n.waiting, id)]);
  }

  // ------------------------------------------------------------ time to finish

  /** The sequence of request r has had g tokens: still in the batch, or closed with its full stream. */
  ghost predicate Progress(cfg: Config, n: Node, r: Request, g: nat) {
    if g < Need(r) then exists s :: s in n.active && s.req == r && s.generated == g
    else exists s :: s in n.closed && s.req == r && s.out == Solo(cfg, r)
  }

  lemma {:induction false} AdmittedLeavesBatch(cfg: Config, n: Node, clock: nat -> real, at: nat, s: Seq)
    ensures s in n.active ==> s in Admitted(cfg, n, clock, at).active
    ensures s in n.closed ==> s in Admitted(cfg, n, clock, at).closed
    decreases |n.waiting|
  {
    if CanAdmit(cfg, n) {
      AdmittedLeavesBatch(cfg, AdmitOne(n, clock(at), clock(at + 1)), clock, at + 2, s);
    }
  }

  lemma PassProgress(cfg: Config, n: Node, clock: nat -> real, s: Seq)
    requires GoodNode(cfg, n) && s in n.active
    ensures Progress(cfg, Passed(cfg, n, clock), s.req, s.generated + 1)
  {
    var stepped := EmitAll(cfg, n.active);
    var i :| 0 <= i < |n.active| && n.active[i] == s;
    var t := stepped[i];
    assert t in stepped && IsDecoding(cfg, n.pool.total, s);
    EmitFollowsSolo(cfg, n.pool.total, s);
    OverMembers(stepped);
    if Finished(t) {
      assert t in Passed(cfg, n, clock).closed;
    } else {
      assert t in Passed(cfg, n, clock).active;
    }
  }

  lemma NextProgress(cfg: Config, m: Machine, e: Event, r: Request, g: nat)
    requires GoodNode(cfg, m.node) && Progress(cfg, m.node, r, g)
    ensures Progress(cfg, Next(cfg, m, e).node, r, g + if e.Pass? then 1 else 0)
  {
    if g < Need(r) {
      var s :| s in m.node.active && s.req == r && s.generated == g;
      match e {
        case Submit(_) =>
        case Admit(clock) => AdmittedLeavesBatch(cfg, m.node, clock, 0, s);
        case Pass(clock) => PassProgress(cfg, m.node, clock, s);
        case Outside(_) =>
      }
    } else {
      var s :| s in m.node.closed && s.req == r && s.out == Solo(cfg, r);
      match e {
        case Submit(_) =>
        case Admit(clock) => AdmittedLeavesBatch(cfg, m.node, clock, 0, s);
        case Pass(clock) => assert s in Passed(cfg, m.node, clock).closed;
        case Outside(_) =>
      }
    }
  }

  /** An active sequence gets one token per pass, evicted or not, and is closed with its
      whole stream exactly when it has had max(1, max_tokens) of them. */
  lemma {:induction false} FinishesOnTime(cfg: Config, m: Machine, es: seq<Event>, s: Seq)
    requires GoodNode(cfg, m.node) && IsRun(cfg, m, es) && s in m.node.active
    ensures Progress(cfg, After(cfg, m, es).node, s.req, s.generated + Passes(es))
  {
    if |es| == 0 {
      assert IsDecoding(cfg, m.node.pool.total, s);
    } else {
      var before := es[..|es| - 1];
      RunStaysGood(cfg, m, before);
      assert IsDecoding(cfg, m.node.pool.total, s);
      FinishesOnTime(cfg, m, before, s);
      NextProgress(cfg, After(cfg, m, before), es[|es| - 1], s.req, s.generated + Passes(before));
    }
  }

  // ------------------------------------------------------------- response time

  /** Where request r stands some passes after submission: still queued; or in the batch or served,
      having had a token for every pass beyond `wait`; or rejected. */
  ghost predicate Fate(cfg: Config, n: Node, r: Request, passes: int, wait: int) {
    || NewSeq(r) in n.waiting
    || (exists g: nat :: passes <= wait + g && Progress(cfg, n, r, g))
    || IsRefused(n, r)
  }

  ghost predicate IsRefused(n: Node, r: Request) {
    exists s :: s in n.closed && s.req == r && s.out == [OomChunk()]
  }

  lemma IsQueued(n: Node, r: Request)
    requires NewSeq(r) in n.waiting
    ensures Queued(n, r.id) && r.id in Known(n)
  {
    var i := FindSeq(n.waiting, r.id);
    var j :| 0 <= j < |n.waiting| && n.waiting[j] == NewSeq(r);
    assert j >= i;
    Timing.IdBagMember(n.waiting, NewSeq(r));
  }

  /** `_admit` takes a queued request to the batch, or rejects it, or leaves it. */
  lemma {:induction false} AdmittedFate(cfg: Config, n: Node, clock: nat -> real, at: nat, r: Request)
    requires NewSeq(r) in n.waiting
    ensures var q := Admitted(cfg, n, clock, at);
      NewSeq(r) in q.waiting || NewSeq(r) in q.active || IsRefused(q, r)
    decreases |n.waiting|
  {
    if CanAdmit(cfg, n) {
      var q := AdmitOne(n, clock(at), clock(at + 1));
      if NewSeq(r) in n.waiting[1..] {
        AdmittedFate(cfg, q, clock, at + 2, r);
      } else {
        assert n.waiting[0] == NewSeq(r);
        var s := NewSeq(r).(out := [OomChunk()]);
        assert [] + [OomChunk()] == [OomChunk()];
        assert NewSeq(r) in q.active || s in q.closed;
        AdmittedLeavesBatch(cfg, q, clock, at + 2, NewSeq(r));
        AdmittedLeavesBatch(cfg, q, clock, at + 2, s);
      }
    }
  }

  lemma RefusedStays(cfg: Config, m: Machine, e: Event, r: Request)
    requires IsRefused(m.node, r)
    ensures IsRefused(Next(cfg, m, e).node, r)
  {
    var s :| s in m.node.closed && s.req == r && s.out == [OomChunk()];
    if e.Admit? {
      AdmittedLeavesBatch(cfg, m.node, e.clock, 0, s);
    }
    assert s in Next(cfg, m, e).node.closed;
  }

  /** A queued request after one more step; `wait` covers the passes so far. */
  lemma QueuedNext(cfg: Config, m: Machine, e: Event, r: Request, passes: nat, wait: int)
    requires GoodNode(cfg, m.node) && Enabled(m, e) && NewSeq(r) in m.node.waiting && passes <= wait
    ensures Fate(cfg, Next(cfg, m, e).node, r, passes + (if e.Pass? then 1 else 0), wait)
  {
    if e.Admit? {
      var q := Next(cfg, m, e).node;
      AdmittedFate(cfg, m.node, e.clock, 0, r);
      if NewSeq(r) in q.active {
        assert Progress(cfg, q, r, 0) by {
          assert NewSeq(r).req == r && NewSeq(r).generated == 0;
        }
        assert passes <= wait + 0;
      }
    } else {
      assert NewSeq(r) in Next(cfg, m, e).node.waiting;
    }
  }

  lemma NextFate(cfg: Config, m: Machine, e: Event, r: Request, passes: nat, wait: int)
    requires GoodNode(cfg, m.node) && Enabled(m, e) && Fate(cfg, m.node, r, passes, wait)
    requires NewSeq(r) in m.node.waiting ==> passes <= wait
    ensures Fate(cfg, Next(cfg, m, e).node, r, passes + (if e.Pass? then 1 else 0), wait)
  {
    if NewSeq(r) in m.node.waiting {
      QueuedNext(cfg, m, e, r, passes, wait);
    } else if IsRefused(m.node, r) {
      RefusedStays(cfg, m, e, r);
    } else {
      var g: nat :| passes <= wait + g && Progress(cfg, m.node, r, g);
      NextProgress(cfg, m, e, r, g);
      var d := if e.Pass? then 1 else 0;
      assert passes + d <= wait + (g + d) && Progress(cfg, Next(cfg, m, e).node, r, g + d);
    }
  }

  lemma {:induction false} IdStaysKnown(cfg: Config, m: Machine, es: seq<Event>, id: string)
    requires IsRun(cfg, m, es) && id in Known(m.node)
    ensures id in Known(After(cfg, m, es).node) && NeverResubmitted(es, id)
  {
    if |es| == 0 {
    } else {
      var before, e := es[..|es| - 1], es[|es| - 1];
      var k := After(cfg, m, before);
      IdStaysKnown(cfg, m, before, id);
      NextKnows(cfg, k, e);
      forall i | 0 <= i < |es| && es[i].Submit? ensures es[i].req.id != id {
        assert i < |es| - 1 ==> before[i] == es[i];
      }
    }
  }

  lemma NextKnows(cfg: Config, m: Machine, e: Event)
    ensures Known(m.node) <= Known(Next(cfg, m, e).node)
  {
    match e {
      case Submit(r) => SubmittedKnows(m.node, r);
      case Admit(clock) => AdmittedKnows(cfg, m.node, clock, 0);
      case Pass(clock) => PassedKnows(cfg, m.node, clock);
      case Outside(_) =>
    }
  }

  /** As NoStarvation, divided out: passes while queued. */
  lemma WaitBound(cfg: Config, m: Machine, es: seq<Event>, r: Request)
    requires cfg.cap >= 1 && GoodNode(cfg, m.node) && IsRun(cfg, m, es)
    requires NewSeq(r) in m.node.waiting && NewSeq(r) in After(cfg, m, es).node.waiting
    ensures Ahead(m.node, r.id) >= 0 && Passes(es) <= Ahead(m.node, r.id) / cfg.cap + 1
  {
    IsQueued(m.node, r);
    IsQueued(After(cfg, m, es).node, r);
    IdStaysKnown(cfg, m, es, r.id);
    NoStarvation(cfg, m, es, r.id);
    AheadAtLeast(cfg, m.node, r.id);
    Divided(cfg.cap, Passes(es), Ahead(m.node, r.id));
  }

  lemma ProductRises(c: nat, x: nat, y: nat)
    ensures x <= y ==> c * x <= c * y
  {
    assert c * y - c * x == c * (y - x);
  }

  lemma Divided(cap: nat, passes: nat, work: nat)
    requires cap >= 1 && cap * passes <= work + cap
    ensures passes <= work / cap + 1
  {
    var q := work / cap;
    ProductRises(cap, q + 2, passes);
    assert cap * (q + 2) == cap * q + cap + cap && work < cap * q + cap;
  }

  lemma {:induction false} RunFate(cfg: Config, m: Machine, es: seq<Event>, r: Request)
    requires cfg.cap >= 1 && GoodNode(cfg, m.node) && IsRun(cfg, m, es) && NewSeq(r) in m.node.waiting
    ensures Fate(cfg, After(cfg, m, es).node, r, Passes(es), Ahead(m.node, r.id) / cfg.cap + 1)
  {
    if |es| == 0 {
    } else {
      var before := es[..|es| - 1];
      var k := After(cfg, m, before);
      RunFate(cfg, m, before, r);
      RunStaysGood(cfg, m, before);
      if NewSeq(r) in k.node.waiting {
        WaitBound(cfg, m, before, r);
      }
      NextFate(cfg, k, es[|es| - 1], r, Passes(before), Ahead(m.node, r.id) / cfg.cap + 1);
    }
  }

  /** Response time. A request with W tokens of work ahead of it has its full stream, or the oom
      chunk, within floor(W / cap) + 1 + max(1, max_tokens) passes, whatever is submitted later. */
  lemma ResponseTime(cfg: Config, m: Machine, es: seq<Event>, r: Request)
    requires cfg.cap >= 1 && GoodNode(cfg, m.node) && IsRun(cfg, m, es) && NewSeq(r) in m.node.waiting
    requires Passes(es) >= Ahead(m.node, r.id) / cfg.cap + 1 + Need(r)
    ensures exists s :: s in After(cfg, m, es).node.closed && s.req == r && (s.out == Solo(cfg, r) || s.out == [OomChunk()])
  {
    var n, wait := After(cfg, m, es).node, Ahead(m.node, r.id) / cfg.cap + 1;
    RunFate(cfg, m, es, r);
    if NewSeq(r) in n.waiting {
      WaitBound(cfg, m, es, r);
      assert false;
    } else if !IsRefused(n, r) {
      var g: nat :| Passes(es) <= wait + g && Progress(cfg, n, r, g);
      assert g >= Need(r);
    }
  }
}
