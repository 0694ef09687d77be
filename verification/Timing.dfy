/** How many passes things take: makespan, waiting time, and time to finish. */
module Timing {
  import MemorySim
  import opened PoolRuns
  import opened Batching
  import opened BatchRuns
  import BatchLedger

  /** The ids served by each pass of a run, in order. */
  function Batches(cfg: Config, m: Machine, es: seq<Event>): seq<seq<string>> {
    if |es| == 0 then []
    else
      var before := es[..|es| - 1];
      Batches(cfg, m, before)
      + if es[|es| - 1].Pass? then [SeqIds(After(cfg, m, before).node.active)] else []
  }

  /** How often a schedule serves each id. */
  function Flat(b: seq<seq<string>>): multiset<string> {
    if |b| == 0 then multiset{} else Flat(b[..|b| - 1]) + multiset(b[|b| - 1])
  }

  lemma FlatAppend(b: seq<seq<string>>, batch: seq<string>)
    ensures Flat(b + [batch]) == Flat(b) + multiset(batch)
  {
    assert (b + [batch])[..|b|] == b;
  }

  lemma {:induction false} SeqIdsIsIdBag(ss: seq<Seq>)
    ensures multiset(SeqIds(ss)) == IdBag(ss)
  {
    if |ss| == 0 {
    } else {
      SeqIdsIsIdBag(ss[1..]);
      assert SeqIds(ss) == [ss[0].req.id] + SeqIds(ss[1..]);
    }
  }

  // --------------------------------------------- passes taken and tokens received

  /** Everyone has received as many tokens as there were passes with it in the batch. */
  ghost predicate CountsAgree(n: Node, b: seq<seq<string>>) {
    && (forall s :: s in Everyone(n) ==> Flat(b)[s.req.id] == s.generated)
    && (forall id :: Flat(b)[id] > 0 ==> id in Known(n))
    && |Flat(b)| == n.tokens
  }

  lemma {:induction false} IdBagMember(ss: seq<Seq>, s: Seq)
    requires s in ss
    ensures IdBag(ss)[s.req.id] >= 1
  {
    if ss[0] != s {
      IdBagMember(ss[1..], s);
    }
  }

  lemma ActiveOnce(n: Node, s: Seq)
    requires Unique(n) && s in Everyone(n)
    ensures IdBag(n.active)[s.req.id] == if s in n.active then 1 else 0
  {
    assert Known(n)[s.req.id] <= 1;
    if s in n.active {
      IdBagMember(n.active, s);
    } else if s in n.waiting {
      IdBagMember(n.waiting, s);
    } else {
      IdBagMember(n.closed, s);
    }
  }

  lemma PassCountsOne(cfg: Config, n: Node, clock: nat -> real, b: seq<seq<string>>, x: Seq)
    requires Unique(n) && CountsAgree(n, b) && x in Everyone(Passed(cfg, n, clock))
    ensures Flat(b)[x.req.id] + IdBag(n.active)[x.req.id] == x.generated
  {
    var stepped := EmitAll(cfg, n.active);
    OverMembers(stepped);
    if x in stepped {
      var i :| 0 <= i < |stepped| && stepped[i] == x;
      assert n.active[i] in Everyone(n);
      ActiveOnce(n, n.active[i]);
    } else {
      assert x in n.waiting || x in n.closed;
      NotActive(n, x);
      assert x in Everyone(n);
    }
  }

  lemma NotActive(n: Node, x: Seq)
    requires Unique(n) && (x in n.waiting || x in n.closed)
    ensures IdBag(n.active)[x.req.id] == 0
  {
    assert Known(n)[x.req.id] <= 1;
    if x in n.waiting {
      IdBagMember(n.waiting, x);
    } else {
      IdBagMember(n.closed, x);
    }
  }

  lemma PassCounts(cfg: Config, n: Node, clock: nat -> real, b: seq<seq<string>>)
    requires Unique(n) && CountsAgree(n, b)
    ensures CountsAgree(Passed(cfg, n, clock), b + [SeqIds(n.active)])
  {
    var q, b' := Passed(cfg, n, clock), b + [SeqIds(n.active)];
    FlatAppend(b, SeqIds(n.active));
    SeqIdsIsIdBag(n.active);
    SeqIdsAt(n.active);
    PassedKnows(cfg, n, clock);
    forall x | x in Everyone(q) ensures Flat(b')[x.req.id] == x.generated {
      PassCountsOne(cfg, n, clock, b, x);
    }
    forall id | Flat(b')[id] > 0 ensures id in Known(q) {
      assert IdBag(n.active)[id] > 0 ==> id in Known(n);
    }
  }

  lemma {:induction false} AdmittedGenerated(cfg: Config, n: Node, clock: nat -> real, at: nat, s: Seq)
    requires s in Everyone(Admitted(cfg, n, clock, at))
    ensures exists t :: t in Everyone(n) && t.req == s.req && t.generated == s.generated
    decreases |n.waiting|
  {
    if CanAdmit(cfg, n) {
      var q := AdmitOne(n, clock(at), clock(at + 1));
      AdmittedGenerated(cfg, q, clock, at + 2, s);
      var t :| t in Everyone(q) && t.req == s.req && t.generated == s.generated;
      if t !in Everyone(n) {
        assert n.waiting[0] in Everyone(n);
      }
    } else {
      assert s in Everyone(n);
    }
  }

  lemma {:induction false} AdmittedTokens(cfg: Config, n: Node, clock: nat -> real, at: nat)
    ensures Admitted(cfg, n, clock, at).tokens == n.tokens
    decreases |n.waiting|
  {
    if CanAdmit(cfg, n) {
      AdmittedTokens(cfg, AdmitOne(n, clock(at), clock(at + 1)), clock, at + 2);
    }
  }

  lemma AdmitCounts(cfg: Config, n: Node, clock: nat -> real, b: seq<seq<string>>)
    requires CountsAgree(n, b)
    ensures CountsAgree(Admitted(cfg, n, clock, 0), b)
  {
    var q := Admitted(cfg, n, clock, 0);
    AdmittedTokens(cfg, n, clock, 0);
    AdmittedKnows(cfg, n, clock, 0);
    forall s | s in Everyone(q) ensures Flat(b)[s.req.id] == s.generated {
      AdmittedGenerated(cfg, n, clock, 0, s);
      var t :| t in Everyone(n) && t.req == s.req && t.generated == s.generated;
    }
  }

  lemma SubmitCounts(n: Node, r: Request, b: seq<seq<string>>)
    requires CountsAgree(n, b) && r.id !in Known(n)
    ensures CountsAgree(Submitted(n, r), b)
  {
    SubmittedKnows(n, r);
    assert Flat(b)[r.id] == 0;
    forall s | s in Everyone(Submitted(n, r)) ensures Flat(b)[s.req.id] == s.generated {
      assert s in Everyone(n) || s == NewSeq(r);
    }
  }

  lemma NextCounts(cfg: Config, m: Machine, e: Event, b: seq<seq<string>>)
    requires Unique(m.node) && CountsAgree(m.node, b) && Enabled(m, e)
    ensures CountsAgree(Next(cfg, m, e).node, b + if e.Pass? then [SeqIds(m.node.active)] else [])
  {
    assert b + [] == b;
    match e
    case Submit(r) => SubmitCounts(m.node, r, b);
    case Admit(clock) => AdmitCounts(cfg, m.node, clock, b);
    case Pass(clock) => PassCounts(cfg, m.node, clock, b);
    case Outside(op) => assert Known(Next(cfg, m, e).node) == Known(m.node);
  }

  /** In any run from an empty scheduler, outside pool calls included. */
  lemma {:induction false} TokensArePasses(cfg: Config, total: real, policy: string, es: seq<Event>)
    requires total >= 0.0 && IsRun(cfg, Boot(Fresh(total, policy)), es)
    ensures CountsAgree(After(cfg, Boot(Fresh(total, policy)), es).node, Batches(cfg, Boot(Fresh(total, policy)), es))
  {
    if |es| == 0 {
    } else {
      var m, before := Boot(Fresh(total, policy)), es[..|es| - 1];
      BootIsGood(cfg, total, policy);
      RunStaysGood(cfg, m, before);
      TokensArePasses(cfg, total, policy, before);
      NextCounts(cfg, After(cfg, m, before), es[|es| - 1], Batches(cfg, m, before));
    }
  }

  // ------------------------------------------------------------------ makespan

  /** A closed set of requests: every submit comes before anything else. */
  ghost predicate SubmitsFirst(es: seq<Event>) {
    forall i, j :: 0 <= i < j < |es| && es[j].Submit? ==> es[i].Submit?
  }

  /** Passes with a batch that is not full. */
  function Short(cap: int, b: seq<seq<string>>): nat {
    if |b| == 0 then 0 else Short(cap, b[..|b| - 1]) + if |b[|b| - 1]| < cap then 1 else 0
  }

  lemma ShortAppend(cap: int, b: seq<seq<string>>, batch: seq<string>)
    ensures Short(cap, b + [batch]) == Short(cap, b) + if |batch| < cap then 1 else 0
  {
    assert (b + [batch])[..|b|] == b;
  }

  ghost predicate PassBound(cap: int, b: seq<seq<string>>) {
    cap * |b| + Short(cap, b) <= |Flat(b)| + cap * Short(cap, b)
  }

  /** Once a short pass has happened the queue is empty, and whoever is active
      was served by all the short passes. */
  ghost predicate Draining(cfg: Config, m: Machine, b: seq<seq<string>>) {
    var q := Short(cfg.cap, b);
    && (m.sleeping ==> |m.node.active| > 0 && (|m.node.waiting| == 0 || |m.node.active| >= cfg.cap))
    && (q > 0 ==> |m.node.waiting| == 0)
    && (q > 0 ==> forall s :: s in m.node.active ==> Flat(b)[s.req.id] >= q)
    && (q > 0 ==> exists id :: Flat(b)[id] >= q)
  }

  lemma OnePassMore(cap: int, passes: nat, work: nat, short: nat, size: nat)
    requires cap >= 1 && size >= 1 && cap * passes + short <= work + cap * short
    ensures var short' := if size < cap then short + 1 else short;
      cap * (passes + 1) + short' <= work + size + cap * short'
  {
    assert cap * (passes + 1) == cap * passes + cap && cap * (short + 1) == cap * short + cap;
  }

  lemma PassKeepsBound(cap: int, b: seq<seq<string>>, batch: seq<string>)
    requires cap >= 1 && |batch| >= 1 && PassBound(cap, b)
    ensures PassBound(cap, b + [batch])
  {
    FlatAppend(b, batch);
    ShortAppend(cap, b, batch);
    assert |Flat(b) + multiset(batch)| == |Flat(b)| + |batch|;
    OnePassMore(cap, |b|, |Flat(b)|, Short(cap, b), |batch|);
  }

  lemma PassDrains(cfg: Config, m: Machine, clock: nat -> real, b: seq<seq<string>>)
    requires m.sleeping && Draining(cfg, m, b)
    ensures Draining(cfg, Next(cfg, m, Pass(clock)), b + [SeqIds(m.node.active)])
  {
    var act := m.node.active;
    var b', stepped := b + [SeqIds(act)], EmitAll(cfg, act);
    var q' := Short(cfg.cap, b');
    ShortAppend(cfg.cap, b, SeqIds(act));
    SeqIdsAt(act);
    forall s | s in act && q' > 0 ensures Flat(b')[s.req.id] >= q' {
      FlatAppend(b, SeqIds(act));
      SeqIdsIsIdBag(act);
      IdBagMember(act, s);
    }
    forall s | s in Ongoing(stepped) && q' > 0 ensures Flat(b')[s.req.id] >= q' {
      OverMembers(stepped);
      var i :| 0 <= i < |act| && stepped[i] == s;
      assert act[i] in act;
    }
    assert act[0] in act;
  }

  lemma AdmitDrains(cfg: Config, m: Machine, clock: nat -> real, b: seq<seq<string>>)
    requires !m.sleeping && Draining(cfg, m, b)
    ensures Draining(cfg, Next(cfg, m, Admit(clock)), b)
  {
    BatchLedger.AdmitFills(cfg, m.node, clock, 0);
  }

  lemma NextDrains(cfg: Config, m: Machine, e: Event, b: seq<seq<string>>)
    requires cfg.cap >= 1 && Enabled(m, e) && Draining(cfg, m, b) && PassBound(cfg.cap, b)
    requires e.Submit? ==> !m.sleeping && b == []
    ensures var b' := b + if e.Pass? then [SeqIds(m.node.active)] else [];
      Draining(cfg, Next(cfg, m, e), b') && PassBound(cfg.cap, b')
  {
    assert b + [] == b;
    match e {
      case Submit(r) =>
      case Admit(clock) => AdmitDrains(cfg, m, clock, b);
      case Pass(clock) =>
        PassDrains(cfg, m, clock, b);
        SeqIdsAt(m.node.active);
        PassKeepsBound(cfg.cap, b, SeqIds(m.node.active));
      case Outside(op) =>
    }
  }

  lemma {:induction false} SubmitsOnlyIdle(cfg: Config, m: Machine, es: seq<Event>)
    requires !m.sleeping && forall i :: 0 <= i < |es| ==> es[i].Submit?
    ensures !After(cfg, m, es).sleeping && Batches(cfg, m, es) == []
  {
    if |es| == 0 {
    } else {
      SubmitsOnlyIdle(cfg, m, es[..|es| - 1]);
    }
  }

  lemma {:induction false} RunDrains(cfg: Config, total: real, policy: string, es: seq<Event>)
    requires cfg.cap >= 1 && total >= 0.0 && IsRun(cfg, Boot(Fresh(total, policy)), es) && SubmitsFirst(es)
    ensures Draining(cfg, After(cfg, Boot(Fresh(total, policy)), es), Batches(cfg, Boot(Fresh(total, policy)), es))
    ensures PassBound(cfg.cap, Batches(cfg, Boot(Fresh(total, policy)), es))
  {
    if |es| == 0 {
    } else {
      var m, before := Boot(Fresh(total, policy)), es[..|es| - 1];
      assert forall i :: 0 <= i < |before| ==> before[i] == es[i];
      RunDrains(cfg, total, policy, before);
      if es[|es| - 1].Submit? {
        SubmitsOnlyIdle(cfg, m, before);
      }
      NextDrains(cfg, After(cfg, m, before), es[|es| - 1], Batches(cfg, m, before));
    }
  }

  lemma MakespanArith(cap: nat, passes: nat, work: nat, short: nat, longest: nat)
    requires cap >= 1 && short <= longest && cap * passes + short <= work + cap * short
    ensures cap * passes + longest <= work + cap * longest
  {
    assert cap * longest == cap * short + cap * (longest - short) && cap * (longest - short) >= longest - short;
  }

  lemma StepArith(cap: nat, work: nat, steps: nat, size: nat)
    requires work <= cap * steps && size <= cap
    ensures work + size <= cap * (steps + 1)
  {
  }

  lemma ShortIsServed(cfg: Config, m: Machine, b: seq<seq<string>>, longest: nat)
    requires Draining(cfg, m, b) && CountsAgree(m.node, b)
    requires forall s :: s in Everyone(m.node) ==> s.generated <= longest
    ensures Short(cfg.cap, b) <= longest
  {
    if Short(cfg.cap, b) > 0 {
      var id :| Flat(b)[id] >= Short(cfg.cap, b);
      KnownMember(m.node, id);
    }
  }

  lemma MakespanAt(cfg: Config, m: Machine, b: seq<seq<string>>, longest: nat)
    requires cfg.cap >= 1 && Draining(cfg, m, b) && PassBound(cfg.cap, b) && CountsAgree(m.node, b)
    requires forall s :: s in Everyone(m.node) ==> s.generated <= longest
    ensures cfg.cap * |b| + longest <= m.node.tokens + cfg.cap * longest
  {
    ShortIsServed(cfg, m, b, longest);
    MakespanArith(cfg.cap, |b|, |Flat(b)|, Short(cfg.cap, b), longest);
  }

  /** With W tokens emitted so far and nobody given more than `longest`, a closed set of
      requests has taken P passes with  cap * P <= W + (cap - 1) * longest
      (written below without the subtraction). */
  lemma Makespan(cfg: Config, total: real, policy: string, es: seq<Event>, longest: nat)
    requires cfg.cap >= 1 && total >= 0.0 && IsRun(cfg, Boot(Fresh(total, policy)), es) && SubmitsFirst(es)
    requires forall s :: s in Everyone(After(cfg, Boot(Fresh(total, policy)), es).node) ==> s.generated <= longest
    ensures var p := |Batches(cfg, Boot(Fresh(total, policy)), es)|;
      cfg.cap * p + longest <= After(cfg, Boot(Fresh(total, policy)), es).node.tokens + cfg.cap * longest
  {
    var m := Boot(Fresh(total, policy));
    var b := Batches(cfg, m, es);
    RunDrains(cfg, total, policy, es);
    TokensArePasses(cfg, total, policy, es);
    MakespanAt(cfg, After(cfg, m, es), b, longest);
  }

  lemma {:induction false} IdBagHas(ss: seq<Seq>, id: string)
    requires id in IdBag(ss)
    ensures exists s :: s in ss && s.req.id == id
  {
    if ss[0].req.id == id {
      assert ss[0] in ss;
    } else {
      IdBagHas(ss[1..], id);
      var s :| s in ss[1..] && s.req.id == id;
      assert s in ss;
    }
  }

  lemma KnownMember(n: Node, id: string)
    requires id in Known(n)
    ensures exists s :: s in Everyone(n) && s.req.id == id
  {
    if id in IdBag(n.waiting) {
      IdBagHas(n.waiting, id);
    } else if id in IdBag(n.active) {
      IdBagHas(n.active, id);
    } else {
      IdBagHas(n.closed, id);
    }
    assert forall s :: s in n.waiting || s in n.active || s in n.closed ==> s in Everyone(n);
  }

  /** Any way to serve at least the same tokens: no id twice in a step, at most cap per step. */
  ghost predicate IsSchedule(cap: int, b: seq<seq<string>>) {
    forall i :: 0 <= i < |b| ==> |b[i]| <= cap && forall id :: multiset(b[i])[id] <= 1
  }

  lemma {:induction false} ScheduleWork(cap: nat, b: seq<seq<string>>)
    requires IsSchedule(cap, b)
    ensures |Flat(b)| <= cap * |b|
  {
    if |b| == 0 {
    } else {
      var k := |b| - 1;
      assert IsSchedule(cap, b[..k]);
      ScheduleWork(cap, b[..k]);
      assert |Flat(b[..k]) + multiset(b[k])| == |Flat(b[..k])| + |b[k]|;
      StepArith(cap, |Flat(b[..k])|, k, |b[k]|);
    }
  }

  lemma {:induction false} ScheduleLength(cap: int, b: seq<seq<string>>, id: string)
    requires IsSchedule(cap, b)
    ensures Flat(b)[id] <= |b|
  {
    if |b| == 0 {
    } else {
      ScheduleLength(cap, b[..|b| - 1], id);
      assert multiset(b[|b| - 1])[id] <= 1;
    }
  }

  lemma SmallerBag(a: multiset<string>, b: multiset<string>)
    requires a <= b
    ensures |a| <= |b|
  {
    assert b == a + (b - a);
  }

  lemma ServedWithin(cfg: Config, n: Node, b: seq<seq<string>>, opt: seq<seq<string>>)
    requires CountsAgree(n, b) && IsSchedule(cfg.cap, opt) && Flat(b) <= Flat(opt)
    ensures forall s :: s in Everyone(n) ==> s.generated <= |opt|
  {
    forall s | s in Everyone(n) ensures s.generated <= |opt| {
      ScheduleLength(cfg.cap, opt, s.req.id);
    }
  }

  lemma WorkWithin(cfg: Config, n: Node, b: seq<seq<string>>, opt: seq<seq<string>>)
    requires cfg.cap >= 1 && CountsAgree(n, b) && IsSchedule(cfg.cap, opt) && Flat(b) <= Flat(opt)
    ensures n.tokens <= cfg.cap * |opt|
  {
    ScheduleWork(cfg.cap, opt);
    SmallerBag(Flat(b), Flat(opt));
  }

  lemma NearOptimalAt(cfg: Config, m: Machine, b: seq<seq<string>>, opt: seq<seq<string>>)
    requires cfg.cap >= 1 && Draining(cfg, m, b) && PassBound(cfg.cap, b) && CountsAgree(m.node, b)
    requires IsSchedule(cfg.cap, opt) && Flat(b) <= Flat(opt)
    ensures cfg.cap * |b| + |opt| <= 2 * (cfg.cap * |opt|)
  {
    ServedWithin(cfg, m.node, b, opt);
    MakespanAt(cfg, m, b, |opt|);
    WorkWithin(cfg, m.node, b, opt);
  }

  /** The loop's number of passes is within a factor 2 - 1/cap of any schedule's:
      cap * P <= (2 * cap - 1) * steps. */
  lemma NearOptimal(cfg: Config, total: real, policy: string, es: seq<Event>, opt: seq<seq<string>>)
    requires cfg.cap >= 1 && total >= 0.0 && IsRun(cfg, Boot(Fresh(total, policy)), es) && SubmitsFirst(es)
    requires IsSchedule(cfg.cap, opt) && Flat(Batches(cfg, Boot(Fresh(total, policy)), es)) <= Flat(opt)
    ensures cfg.cap * |Batches(cfg, Boot(Fresh(total, policy)), es)| + |opt| <= 2 * (cfg.cap * |opt|)
  {
    var m := Boot(Fresh(total, policy));
    RunDrains(cfg, total, policy, es);
    TokensArePasses(cfg, total, policy, es);
    NearOptimalAt(cfg, After(cfg, m, es), Batches(cfg, m, es), opt);
  }

  // ------------------------------------------------------- when all is served

  /** The tokens owed to the requests that were not rejected. */
  function ServedWork(ss: seq<Seq>): nat {
    if |ss| == 0 then 0 else (if ss[0].out == [OomChunk()] then 0 else Need(ss[0].req)) + ServedWork(ss[1..])
  }

  lemma {:induction false} AllTokens(out: seq<Chunk>)
    requires forall i :: 0 <= i < |out| ==> out[i].finish.None?
    ensures BatchLedger.TokenCount(out) == |out|
  {
    if |out| == 0 {
    } else {
      AllTokens(out[1..]);
    }
  }

  lemma SoloTokens(cfg: Config, r: Request)
    ensures BatchLedger.TokenCount(Solo(cfg, r)) == Need(r)
  {
    var solo := Solo(cfg, r);
    assert solo == solo[..Need(r)] + [solo[Need(r)]];
    AllTokens(solo[..Need(r)]);
    BatchLedger.TokenCountOne(solo[Need(r)]);
    BatchLedger.TokenCountConcat(solo[..Need(r)], [solo[Need(r)]]);
  }

  lemma {:induction false} ClosedTokens(cfg: Config, pool: MemorySim.Pool, ss: seq<Seq>)
    requires forall s :: s in ss ==> IsClosed(cfg, pool, s)
    ensures BatchLedger.StreamTokens(ss) == ServedWork(ss)
  {
    if |ss| == 0 {
    } else {
      assert ss[0] in ss;
      SoloTokens(cfg, ss[0].req);
      BatchLedger.TokenCountOne(OomChunk());
      assert |Solo(cfg, ss[0].req)| >= 2;
      ClosedTokens(cfg, pool, ss[1..]);
    }
  }

  /** The makespan of a closed set that has been worked off: W tokens owed to those it served,
      the longest of them owed `longest`. Rejected requests cost nothing. */
  lemma ClosedMakespan(cfg: Config, total: real, policy: string, es: seq<Event>, longest: nat)
    requires cfg.cap >= 1 && total >= 0.0 && IsRun(cfg, Boot(Fresh(total, policy)), es) && SubmitsFirst(es)
    requires var n := After(cfg, Boot(Fresh(total, policy)), es).node;
      n.waiting == [] && n.active == [] && forall s :: s in n.closed && s.out != [OomChunk()] ==> Need(s.req) <= longest
    ensures var n, p := After(cfg, Boot(Fresh(total, policy)), es).node, |Batches(cfg, Boot(Fresh(total, policy)), es)|;
      cfg.cap * p + longest <= ServedWork(n.closed) + cfg.cap * longest
  {
    var m := Boot(Fresh(total, policy));
    var n := After(cfg, m, es).node;
    BootIsGood(cfg, total, policy);
    BatchLedger.RunBalances(cfg, m, es);
    ClosedTokens(cfg, n.pool, n.closed);
    forall s | s in Everyone(n) ensures s.generated <= longest {
      assert IsClosed(cfg, n.pool, s);
    }
    Makespan(cfg, total, policy, es, longest);
  }
}
