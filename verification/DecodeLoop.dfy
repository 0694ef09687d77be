/** The scheduler's own loop, `_run`, and the run of the state machine it amounts to. */
module DecodeLoop {
  import opened PoolRuns
  import opened Batching
  import opened BatchRuns
  import BatchLedger
  import Timing
  import Waiting

  /** The clock readings of one turn. */
  datatype Turn = Turn(admitClock: nat -> real, passClock: nat -> real)

  /** One turn: admit, then a pass if anyone is active. */
  function Turned(cfg: Config, n: Node, turn: Turn): Node {
    var a := Admitted(cfg, n, turn.admitClock, 0);
    if |a.active| > 0 then Passed(cfg, a, turn.passClock) else a
  }

  function Busy(cfg: Config, n: Node, turn: Turn): nat {
    if |Admitted(cfg, n, turn.admitClock, 0).active| > 0 then 1 else 0
  }

  function Looped(cfg: Config, n: Node, turns: seq<Turn>): Node {
    var l := |turns| - 1;
    if l < 0 then n else Turned(cfg, Looped(cfg, n, turns[..l]), turns[l])
  }

  /** How many of the turns make a pass. */
  function PassCount(cfg: Config, n: Node, turns: seq<Turn>): nat {
    var l := |turns| - 1;
    if l < 0 then 0 else PassCount(cfg, n, turns[..l]) + Busy(cfg, Looped(cfg, n, turns[..l]), turns[l])
  }

  // ------------------------------------------------------- the loop as a run

  /** es is a run from m to k with p passes, all its submits at the front. */
  ghost predicate Leads(cfg: Config, m: Machine, es: seq<Event>, k: Machine, p: nat) {
    IsRun(cfg, m, es) && After(cfg, m, es) == k && |Timing.Batches(cfg, m, es)| == p && Timing.SubmitsFirst(es)
  }

  lemma LeadsOn(cfg: Config, m: Machine, es: seq<Event>, k: Machine, p: nat, e: Event) returns (es': seq<Event>)
    requires Leads(cfg, m, es, k, p) && Enabled(k, e) && !e.Submit?
    ensures Leads(cfg, m, es', Next(cfg, k, e), p + if e.Pass? then 1 else 0)
  {
    es' := es + [e];
    assert es'[..|es|] == es;
  }

  lemma TurnLeads(cfg: Config, m: Machine, es: seq<Event>, n: Node, p: nat, turn: Turn) returns (es': seq<Event>)
    requires Leads(cfg, m, es, Machine(n, false), p)
    ensures Leads(cfg, m, es', Machine(Turned(cfg, n, turn), false), p + Busy(cfg, n, turn))
  {
    var a := Admitted(cfg, n, turn.admitClock, 0);
    es' := LeadsOn(cfg, m, es, Machine(n, false), p, Admit(turn.admitClock));
    if |a.active| > 0 {
      es' := LeadsOn(cfg, m, es', Machine(a, true), p, Pass(turn.passClock));
    }
  }

  /** The loop continues any run: its turns are steps of the state machine. */
  lemma {:induction false} LoopLeads(cfg: Config, m: Machine, es: seq<Event>, n: Node, p: nat, turns: seq<Turn>)
    returns (es': seq<Event>)
    requires Leads(cfg, m, es, Machine(n, false), p)
    ensures Leads(cfg, m, es', Machine(Looped(cfg, n, turns), false), p + PassCount(cfg, n, turns))
  {
    es' := es;
    if |turns| == 0 {
    } else {
      var l := |turns| - 1;
      es' := LoopLeads(cfg, m, es, n, p, turns[..l]);
      es' := TurnLeads(cfg, m, es', Looped(cfg, n, turns[..l]), p + PassCount(cfg, n, turns[..l]), turns[l]);
    }
  }

  // ------------------------------------------------------- the loop gets done

  /** The tokens still owed to those waiting or active. */
  function Owed(n: Node): int {
    Waiting.Work(n.waiting) + Waiting.Work(n.active)
  }

  predicate Idle(n: Node) {
    |n.waiting| == 0 && |n.active| == 0
  }

  lemma AdmitOneOwes(cfg: Config, n: Node, t0: real, t1: real)
    requires GoodNode(cfg, n) && |n.waiting| > 0
    ensures Owed(AdmitOne(n, t0, t1)) <= Owed(n)
  {
    assert IsWaiting(n.waiting[0]);
    Waiting.WorkConcat(n.active, [n.waiting[0]]);
  }

  lemma {:induction false} AdmittedOwes(cfg: Config, n: Node, clock: nat -> real, at: nat)
    requires GoodNode(cfg, n)
    ensures Owed(Admitted(cfg, n, clock, at)) <= Owed(n)
    decreases |n.waiting|
  {
    if CanAdmit(cfg, n) {
      AdmitOneOwes(cfg, n, clock(at), clock(at + 1));
      AdmitOneStaysGood(cfg, n, clock(at), clock(at + 1));
      AdmittedOwes(cfg, AdmitOne(n, clock(at), clock(at + 1)), clock, at + 2);
    }
  }

  lemma TurnedOwes(cfg: Config, n: Node, turn: Turn)
    requires cfg.cap >= 1 && GoodNode(cfg, n)
    ensures GoodNode(cfg, Turned(cfg, n, turn))
    ensures Idle(Turned(cfg, n, turn)) || Owed(Turned(cfg, n, turn)) < Owed(n)
    ensures Idle(n) ==> Idle(Turned(cfg, n, turn))
  {
    var a := Admitted(cfg, n, turn.admitClock, 0);
    AdmittedOwes(cfg, n, turn.admitClock, 0);
    AdmittedStaysGood(cfg, n, turn.admitClock, 0);
    BatchLedger.AdmitFills(cfg, n, turn.admitClock, 0);
    if |a.active| > 0 {
      PassedStaysGood(cfg, a, turn.passClock);
      Waiting.EmittedWork(cfg, a.pool.total, a.active);
    }
  }

  lemma {:induction false} LoopOwes(cfg: Config, n: Node, turns: seq<Turn>)
    requires cfg.cap >= 1 && GoodNode(cfg, n)
    ensures GoodNode(cfg, Looped(cfg, n, turns))
    ensures Idle(Looped(cfg, n, turns)) || Owed(Looped(cfg, n, turns)) + |turns| <= Owed(n)
  {
    if |turns| == 0 {
    } else {
      var l := |turns| - 1;
      LoopOwes(cfg, n, turns[..l]);
      TurnedOwes(cfg, Looped(cfg, n, turns[..l]), turns[l]);
    }
  }

  lemma OwedAtLeast(cfg: Config, n: Node)
    requires GoodNode(cfg, n)
    ensures Owed(n) >= 0
  {
    Waiting.WaitingWork(n.waiting);
    Waiting.WorkAtLeast(cfg, n.pool.total, n.active);
  }

  /** With room for at least one, the loop is done once it has had more turns than tokens were owed. */
  lemma LoopDrains(cfg: Config, n: Node, turns: seq<Turn>)
    requires cfg.cap >= 1 && GoodNode(cfg, n) && |turns| > Owed(n)
    ensures Idle(Looped(cfg, n, turns))
  {
    LoopOwes(cfg, n, turns);
    OwedAtLeast(cfg, Looped(cfg, n, turns));
  }

  /** The loop's passes over requests submitted before it started. */
  lemma LoopPasses(cfg: Config, total: real, policy: string, es: seq<Event>, n0: Node, turns: seq<Turn>, longest: nat)
    requires cfg.cap >= 1 && total >= 0.0 && Leads(cfg, Boot(Fresh(total, policy)), es, Machine(n0, false), 0)
    requires var n := Looped(cfg, n0, turns);
      Idle(n) && forall s :: s in n.closed && s.out != [OomChunk()] ==> Need(s.req) <= longest
    ensures cfg.cap * PassCount(cfg, n0, turns) + longest <= Timing.ServedWork(Looped(cfg, n0, turns).closed) + cfg.cap * longest
  {
    var es' := LoopLeads(cfg, Boot(Fresh(total, policy)), es, n0, 0, turns);
    Timing.ClosedMakespan(cfg, total, policy, es', longest);
  }

  lemma SubmitsLead(cfg: Config, total: real, policy: string, es: seq<Event>)
    requires total >= 0.0 && IsRun(cfg, Boot(Fresh(total, policy)), es)
    requires forall i :: 0 <= i < |es| ==> es[i].Submit?
    ensures var m := Boot(Fresh(total, policy)); var n0 := After(cfg, m, es).node;
      Leads(cfg, m, es, Machine(n0, false), 0) && GoodNode(cfg, n0)
  {
    var m := Boot(Fresh(total, policy));
    BootIsGood(cfg, total, policy);
    RunStaysGood(cfg, m, es);
    Timing.SubmitsOnlyIdle(cfg, m, es);
  }

  /** A new scheduler given these requests and then left to its loop: after enough turns everyone
      has the full solo stream or the oom chunk, and the passes P it took satisfy
      cap * P <= W + (cap - 1) * longest,  W being the tokens owed to those it served. */
  lemma LoopServes(cfg: Config, total: real, policy: string, es: seq<Event>, turns: seq<Turn>, longest: nat)
    requires cfg.cap >= 1 && total >= 0.0 && IsRun(cfg, Boot(Fresh(total, policy)), es)
    requires forall i :: 0 <= i < |es| ==> es[i].Submit?
    requires |turns| > Owed(After(cfg, Boot(Fresh(total, policy)), es).node)
    requires var n := Looped(cfg, After(cfg, Boot(Fresh(total, policy)), es).node, turns);
      forall s :: s in n.closed && s.out != [OomChunk()] ==> Need(s.req) <= longest
    ensures var n0 := After(cfg, Boot(Fresh(total, policy)), es).node;
      var n := Looped(cfg, n0, turns);
      && Idle(n) && (forall s :: s in n.closed ==> s.out == Solo(cfg, s.req) || s.out == [OomChunk()])
      && cfg.cap * PassCount(cfg, n0, turns) + longest <= Timing.ServedWork(n.closed) + cfg.cap * longest
  {
    var n0 := After(cfg, Boot(Fresh(total, policy)), es).node;
    SubmitsLead(cfg, total, policy, es);
    LoopDrains(cfg, n0, turns);
    LoopOwes(cfg, n0, turns);
    ClosedStreams(cfg, Looped(cfg, n0, turns));
    LoopPasses(cfg, total, policy, es, n0, turns, longest);
  }

  lemma ClosedStreams(cfg: Config, n: Node)
    requires GoodNode(cfg, n)
    ensures forall s :: s in n.closed ==> s.out == Solo(cfg, s.req) || s.out == [OomChunk()]
  {
    forall s | s in n.closed ensures s.out == Solo(cfg, s.req) || s.out == [OomChunk()] {
      GoodStreams(cfg, n, s);
    }
  }

  // ----------------------------------------------------------------- the method

  /** Everyone in the two lists was in one of these two. */
  ghost predicate OnlyThese(scheduler: DecodeScheduler, waiting: seq<Sequence>, active: seq<Sequence>)
    reads scheduler
  {
    && (forall i :: 0 <= i < |scheduler.waiting| ==> scheduler.waiting[i] in waiting || scheduler.waiting[i] in active)
    && (forall i :: 0 <= i < |scheduler.active| ==> scheduler.active[i] in waiting || scheduler.active[i] in active)
  }

  /** The admission half of a turn. */
  method AdmitPhase(scheduler: DecodeScheduler, clock: nat -> real) returns (busy: bool)
    requires scheduler.Valid()
    modifies scheduler, scheduler.memory, scheduler.waiting
    ensures scheduler.Valid() && scheduler.View() == Admitted(scheduler.cfg, old(scheduler.View()), clock, 0)
    ensures busy == (|scheduler.View().active| > 0)
    ensures OnlyThese(scheduler, old(scheduler.waiting), old(scheduler.active))
  {
    scheduler.Admit(clock);
    busy := |scheduler.active| > 0;
    assert |scheduler.View().active| == |scheduler.active|;
  }

  /** The token pass of a turn. */
  method PassPhase(scheduler: DecodeScheduler, clock: nat -> real)
    requires scheduler.Valid()
    modifies scheduler, scheduler.memory, scheduler.active
    ensures scheduler.Valid() && scheduler.View() == Passed(scheduler.cfg, old(scheduler.View()), clock)
    ensures OnlyThese(scheduler, old(scheduler.waiting), old(scheduler.active))
  {
    scheduler.Pass(clock);
    assert forall i :: 0 <= i < |scheduler.active| ==> scheduler.active[i] in scheduler.active;
  }

  lemma OnlyTheseStill(scheduler: DecodeScheduler, waiting: seq<Sequence>, active: seq<Sequence>,
                       waiting0: seq<Sequence>, active0: seq<Sequence>)
    requires OnlyThese(scheduler, waiting, active)
    requires forall i :: 0 <= i < |waiting| ==> waiting[i] in waiting0 || waiting[i] in active0
    requires forall i :: 0 <= i < |active| ==> active[i] in waiting0 || active[i] in active0
    ensures OnlyThese(scheduler, waiting0, active0)
  {
    assert forall s :: s in waiting || s in active ==> s in waiting0 || s in active0;
  }

  lemma TurnedIs(cfg: Config, n: Node, turn: Turn)
    ensures var a := Admitted(cfg, n, turn.admitClock, 0);
      && Turned(cfg, n, turn) == (if |a.active| > 0 then Passed(cfg, a, turn.passClock) else a)
      && Busy(cfg, n, turn) == if |a.active| > 0 then 1 else 0
  {
  }

  /** One turn of the `while self._running` loop. */
  method RunTurn(scheduler: DecodeScheduler, turn: Turn, ghost n: Node) returns (busy: bool)
    requires scheduler.Valid() && scheduler.View() == n
    modifies scheduler, scheduler.memory, scheduler.waiting, scheduler.active
    ensures scheduler.Valid() && scheduler.View() == Turned(scheduler.cfg, n, turn)
    ensures Busy(scheduler.cfg, n, turn) == if busy then 1 else 0
    ensures OnlyThese(scheduler, old(scheduler.waiting), old(scheduler.active))
  {
    TurnedIs(scheduler.cfg, n, turn);
    busy := AdmitPhase(scheduler, turn.admitClock);
    ghost var waiting, active := scheduler.waiting, scheduler.active;
    if busy {
      PassPhase(scheduler, turn.passClock);
      OnlyTheseStill(scheduler, waiting, active, old(scheduler.waiting), old(scheduler.active));
    }
  }

  lemma LoopedNext(cfg: Config, n: Node, turns: seq<Turn>, i: nat)
    requires i < |turns|
    ensures Looped(cfg, n, turns[..i + 1]) == Turned(cfg, Looped(cfg, n, turns[..i]), turns[i])
    ensures PassCount(cfg, n, turns[..i + 1]) == PassCount(cfg, n, turns[..i]) + Busy(cfg, Looped(cfg, n, turns[..i]), turns[i])
  {
    assert turns[..i + 1][..i] == turns[..i];
  }

  /** The turn at i, in a loop that started at n. */
  method RunAnother(scheduler: DecodeScheduler, turns: seq<Turn>, i: nat, before: nat, ghost n: Node) returns (passes: nat)
    requires scheduler.Valid() && i < |turns|
    requires scheduler.View() == Looped(scheduler.cfg, n, turns[..i]) && before == PassCount(scheduler.cfg, n, turns[..i])
    modifies scheduler, scheduler.memory, scheduler.waiting, scheduler.active
    ensures scheduler.Valid()
    ensures scheduler.View() == Looped(scheduler.cfg, n, turns[..i + 1]) && passes == PassCount(scheduler.cfg, n, turns[..i + 1])
    ensures OnlyThese(scheduler, old(scheduler.waiting), old(scheduler.active))
  {
    LoopedNext(scheduler.cfg, n, turns, i);
    var busy := RunTurn(scheduler, turns[i], Looped(scheduler.cfg, n, turns[..i]));
    passes := before + if busy then 1 else 0;
  }

  /** `_run`, stopped after these turns, no call arriving meanwhile. */
  method Run(scheduler: DecodeScheduler, turns: seq<Turn>) returns (passes: nat)
    requires scheduler.Valid()
    modifies scheduler, scheduler.memory, scheduler.waiting, scheduler.active
    ensures scheduler.Valid() && scheduler.View() == Looped(scheduler.cfg, old(scheduler.View()), turns)
    ensures passes == PassCount(scheduler.cfg, old(scheduler.View()), turns)
  {
    ghost var n := scheduler.View();
    passes := 0;
    for i := 0 to |turns|
      invariant scheduler.Valid() && scheduler.View() == Looped(scheduler.cfg, n, turns[..i])
      invariant passes == PassCount(scheduler.cfg, n, turns[..i])
      invariant OnlyThese(scheduler, old(scheduler.waiting), old(scheduler.active))
    {
      passes := RunAnother(scheduler, turns, i, passes, n);
    }
    assert turns[..|turns|] == turns;
  }
}
