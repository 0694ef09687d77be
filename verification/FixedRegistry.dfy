/** How far the fallback goes when the registry does not change: exactly which nodes are tried. */
module FixedRegistry {
  import opened Prelude
  import opened Ordering
  import opened Routing
  import opened Frames
  import opened Router

  /** Every call lists the same candidates, and an attempt reaches a finish frame exactly when its
      node is live. */
  ghost predicate Answering(session: string, urls: seq<string>, l: Loop, answers: seq<Answer>, cs: seq<Backend>, live: set<string>) {
    forall i :: 0 <= i < |answers| ==>
      && Candidates("decode", answers[i].listed, urls) == cs
      && var k := LoopAfter(session, urls, l, answers[..i]);
        k.Trying? ==> (Complete(answers[i].frames) <==> k.backend.name in live)
  }

  /** ... and no attempt ever reaches one. */
  ghost predicate AllFail(urls: seq<string>, answers: seq<Answer>, cs: seq<Backend>) {
    forall i :: 0 <= i < |answers| ==> Candidates("decode", answers[i].listed, urls) == cs && !Complete(answers[i].frames)
  }

  // -------------------------------------------------- leaving one out, then sorting

  lemma {:induction false} WithKeyOthers(xs: seq<Backend>, exclude: string, v: real)
    ensures WithKey(Others(xs, exclude), ByLoad(), v) == Others(WithKey(xs, ByLoad(), v), exclude)
  {
    if |xs| == 0 {
    } else {
      WithKeyOthers(xs[1..], exclude, v);
      var rest, tail := Others(xs[1..], exclude), WithKey(xs[1..], ByLoad(), v);
      assert Others(xs, exclude) == if xs[0].name == exclude then rest else [xs[0]] + rest;
      assert WithKey(xs, ByLoad(), v) == if LoadScore(xs[0]) == v then [xs[0]] + tail else tail;
      assert ([xs[0]] + rest)[1..] == rest && ([xs[0]] + tail)[1..] == tail;
    }
  }

  lemma {:induction false} OthersSorted(xs: seq<Backend>, exclude: string)
    requires Sorted(xs, ByLoad())
    ensures Sorted(Others(xs, exclude), ByLoad())
  {
    if |xs| == 0 {
    } else {
      OthersSorted(xs[1..], exclude);
      OthersMembers(xs[1..], exclude);
      var rest := Others(xs[1..], exclude);
      forall j | 0 <= j < |rest| ensures LoadScore(xs[0]) <= LoadScore(rest[j]) {
        assert rest[j] in xs[1..];
        var i :| 0 <= i < |xs[1..]| && xs[1..][i] == rest[j];
        assert ByLoad()(xs[0]) <= ByLoad()(xs[i + 1]);
      }
    }
  }

  /** Leaving a node out and sorting by load commute. */
  lemma SortOthers(cs: seq<Backend>, exclude: string)
    ensures Sort(Others(cs, exclude), ByLoad()) == Others(Sort(cs, ByLoad()), exclude)
  {
    var o, rest := Sort(cs, ByLoad()), Others(cs, exclude);
    SortIsStable(cs, ByLoad());
    SortIsStable(rest, ByLoad());
    OthersSorted(o, exclude);
    forall v ensures WithKey(Sort(rest, ByLoad()), ByLoad(), v) == WithKey(Others(o, exclude), ByLoad(), v) {
      assert WithKey(rest, ByLoad(), v) == WithKey(Sort(rest, ByLoad()), ByLoad(), v);
      assert WithKey(cs, ByLoad(), v) == WithKey(o, ByLoad(), v);
      WithKeyOthers(cs, exclude, v);
      WithKeyOthers(o, exclude, v);
    }
    StableSortIsUnique(Sort(rest, ByLoad()), Others(o, exclude), ByLoad());
  }

  lemma RestDiffers(cs: seq<Backend>, m: nat, b: Backend)
    requires DistinctNames(cs) && m < |cs| && b in RemoveAt(cs, m)
    ensures b in cs && b.name != cs[m].name
  {
    var rest := RemoveAt(cs, m);
    var j :| 0 <= j < |rest| && rest[j] == b;
    assert rest[j] == cs[if j < m then j else j + 1];
  }

  lemma SortSecond(cs: seq<Backend>)
    requires |cs| >= 2
    ensures var o, m := Sort(cs, ByLoad()), MinIndex(cs, ByLoad());
      |o| == |cs| && o[0] == cs[m] && o[1] in RemoveAt(cs, m)
  {
    var rest := RemoveAt(cs, MinIndex(cs, ByLoad()));
    SortPermutes(rest, ByLoad());
    assert Sort(rest, ByLoad())[0] in multiset(rest);
  }

  lemma FirstTwo(cs: seq<Backend>)
    requires DistinctNames(cs) && |cs| >= 2
    ensures var o := Sort(cs, ByLoad());
      |o| == |cs| && o[0] in cs && o[1] in cs && o[0].name != o[1].name
  {
    SortSecond(cs);
    RestDiffers(cs, MinIndex(cs, ByLoad()), Sort(cs, ByLoad())[1]);
  }

  /** The first in load order, or the second if the first is the one to leave out. */
  function NextInOrder(cs: seq<Backend>, exclude: string): Backend
    requires |cs| >= 2 && |Sort(cs, ByLoad())| >= 2
  {
    var o := Sort(cs, ByLoad());
    if o[0].name != exclude then o[0] else o[1]
  }

  lemma FallbackInOrder(cs: seq<Backend>, exclude: string)
    requires DistinctNames(cs) && |cs| >= 2
    ensures |Sort(cs, ByLoad())| == |cs|
    ensures PickFallback(cs, exclude) == Some(NextInOrder(cs, exclude))
  {
    var o := Sort(cs, ByLoad());
    SortPermutes(cs, ByLoad());
    FirstTwo(cs);
    SortOthers(cs, exclude);
    SortPermutes(Others(cs, exclude), ByLoad());
    assert o == [o[0]] + o[1..] && o[1..][0] == o[1];
  }

  // ------------------------------------------------------------- the attempts

  /** The order of attempts: the node selected, then the first two in load order. */
  function PlanOf(start: string, first: string, second: string): (plan: seq<string>)
    ensures 2 <= |plan| <= 3 && plan[0] == start
  {
    if start == first then [start, second] else if start == second then [start, first] else [start, first, second]
  }

  function Plan(cs: seq<Backend>, start: string): (plan: seq<string>)
    ensures 1 <= |plan| <= 3 && plan[0] == start
  {
    var o := Sort(cs, ByLoad());
    if |o| < 2 then [start] else PlanOf(start, o[0].name, o[1].name)
  }

  function SetOf(names: seq<string>): set<string> {
    set n | n in names
  }

  function Tried(cs: seq<Backend>, start: string): set<string> {
    SetOf(Plan(cs, start))
  }

  /** Whom the session is left pinned to when all attempts failed. */
  function LeftPinned(cs: seq<Backend>, start: string): string {
    var o := Sort(cs, ByLoad());
    if |o| < 2 || o[1].name == start then start else o[0].name
  }

  /** Position of the first live node in the plan, or the length. */
  function FirstLive(plan: seq<string>, live: set<string>): (j: nat)
    ensures j <= |plan|
    ensures j < |plan| ==> plan[j] in live
    ensures forall i :: 0 <= i < j ==> plan[i] !in live
  {
    if |plan| == 0 || plan[0] in live then 0 else 1 + FirstLive(plan[1..], live)
  }

  /** "The first, or the second if that one has just failed" follows the plan, and from its end
      leads back into it. */
  lemma PlanShape(start: string, first: string, second: string, i: nat)
    requires first != second && i < |PlanOf(start, first, second)|
    ensures var plan := PlanOf(start, first, second); var next := if first != plan[i] then first else second;
      if i + 1 < |plan| then next == plan[i + 1] && next !in plan[..i + 1]
      else next in plan && next == if second == start then start else first
  {
  }

  lemma ManyListed(cs: seq<Backend>, exclude: string)
    requires DistinctNames(cs) && |cs| >= 2
    ensures var o := Sort(cs, ByLoad());
      |o| == |cs| && o[0].name != o[1].name && PickFallback(cs, exclude) == Some(if o[0].name != exclude then o[0] else o[1])
  {
    FirstTwo(cs);
    FallbackInOrder(cs, exclude);
  }

  /** The fallback follows the plan; after its last node the lookup comes back to one already tried. */
  lemma PlanNext(cs: seq<Backend>, start: Backend, i: nat)
    requires DistinctNames(cs) && start in cs && i < |Plan(cs, start.name)|
    ensures var plan := Plan(cs, start.name); var fb := PickFallback(cs, plan[i]);
      if i + 1 < |plan| then fb.Some? && fb.value.name == plan[i + 1] && plan[i + 1] !in plan[..i + 1]
      else if fb.None? then |cs| == 1 && |plan| == 1
      else |cs| >= 2 && fb.value.name in plan && fb.value.name == LeftPinned(cs, start.name)
  {
    SortPermutes(cs, ByLoad());
    if |cs| == 1 {
      OneListed(cs, start);
    } else {
      var o := Sort(cs, ByLoad());
      ManyListed(cs, Plan(cs, start.name)[i]);
      PlanShape(start.name, o[0].name, o[1].name, i);
    }
  }

  lemma OneListed(cs: seq<Backend>, b: Backend)
    requires |cs| == 1 && b in cs
    ensures PickFallback(cs, b.name) == None
  {
    assert Others(cs, b.name) == Others(cs[1..], b.name) == [];
  }

  /** The loop before the i-th attempt of the plan. */
  ghost predicate At(k: Loop, plan: seq<string>, i: nat)
    requires i < |plan|
  {
    k.Trying? && k.backend.name == plan[i] && k.attempted == SetOf(plan[..i])
  }

  ghost predicate Serves(session: string, k: Loop, plan: seq<string>, i: nat)
    requires i < |plan|
  {
    && k.Over? && k.served && k.backend.name == plan[i] && k.attempted == SetOf(plan[..i + 1])
    && Pinned(k.pins, session) == plan[i]
  }

  ghost predicate EndsInError(sent: seq<Out>) {
    |sent| >= 2 && sent[|sent| - 1] == Done && sent[|sent| - 2].Sse? && sent[|sent| - 2].frame.Failure?
  }

  ghost predicate GivesUp(session: string, k: Loop, plan: seq<string>, pin: string)
    requires |plan| > 0
  {
    && k.Over? && !k.served && k.backend.name == plan[|plan| - 1] && k.attempted == SetOf(plan)
    && Pinned(k.pins, session) == pin && EndsInError(k.sent)
  }

  lemma SetOfNext(plan: seq<string>, i: nat)
    requires i < |plan|
    ensures SetOf(plan[..i + 1]) == SetOf(plan[..i]) + {plan[i]}
  {
    assert plan[..i + 1] == plan[..i] + [plan[i]];
  }

  lemma LiveTurn(session: string, urls: seq<string>, k: Loop, a: Answer, plan: seq<string>, i: nat)
    requires i < |plan| && At(k, plan, i) && Complete(a.frames) && Pinned(k.pins, session) == plan[i]
    ensures Serves(session, Step(session, urls, k, a), plan, i)
  {
    SetOfNext(plan, i);
  }

  lemma DeadTurn(session: string, urls: seq<string>, k: Loop, a: Answer, cs: seq<Backend>, start: Backend, i: nat)
    requires var plan := Plan(cs, start.name); i < |plan| && At(k, plan, i) && Pinned(k.pins, session) == plan[i]
    requires !Complete(a.frames) && Candidates("decode", a.listed, urls) == cs && DistinctNames(cs) && start in cs
    ensures var plan, r := Plan(cs, start.name), Step(session, urls, k, a);
      if i + 1 < |plan| then At(r, plan, i + 1) else GivesUp(session, r, plan, LeftPinned(cs, start.name))
  {
    var plan := Plan(cs, start.name);
    PlanNext(cs, start, i);
    SetOfNext(plan, i);
    assert plan[..|plan|] == plan;
    StepFails(session, urls, k, a, SetOf(plan[..i + 1]), PickFallback(cs, plan[i]));
  }

  lemma {:induction false} OverStays(session: string, urls: seq<string>, l: Loop, answers: seq<Answer>, m: nat)
    requires m <= |answers| && LoopAfter(session, urls, l, answers[..m]).Over?
    ensures LoopAfter(session, urls, l, answers) == LoopAfter(session, urls, l, answers[..m])
    decreases |answers|
  {
    var n := |answers| - 1;
    if m <= n {
      assert answers[..n][..m] == answers[..m];
      OverStays(session, urls, l, answers[..n], m);
    } else {
      assert answers[..m] == answers;
    }
  }

  lemma AfterTurn(session: string, urls: seq<string>, l: Loop, answers: seq<Answer>, m: nat)
    requires m < |answers| && LoopAfter(session, urls, l, answers[..m]).Trying?
    ensures LoopAfter(session, urls, l, answers[..m + 1]) == Step(session, urls, LoopAfter(session, urls, l, answers[..m]), answers[m])
  {
    assert answers[..m + 1][..m] == answers[..m];
  }

  /** As long as no node of the plan has been live, the loop is at the next one. */
  lemma {:induction false} Walks(session: string, urls: seq<string>, c: Choice, answers: seq<Answer>, cs: seq<Backend>,
                                 live: set<string>, i: nat)
    requires Answering(session, urls, Begin(c), answers, cs, live) && DistinctNames(cs) && c.backend in cs
    requires Pinned(c.pins, session) == c.backend.name
    requires i < |Plan(cs, c.backend.name)| && i <= FirstLive(Plan(cs, c.backend.name), live) && i <= |answers|
    ensures At(LoopAfter(session, urls, Begin(c), answers[..i]), Plan(cs, c.backend.name), i)
  {
    if i == 0 {
      assert answers[..0] == [] && Plan(cs, c.backend.name)[..0] == [];
    } else {
      Walks(session, urls, c, answers, cs, live, i - 1);
      AfterTurn(session, urls, Begin(c), answers, i - 1);
      PinFollowsAttempts(session, urls, c, answers[..i - 1]);
      DeadTurn(session, urls, LoopAfter(session, urls, Begin(c), answers[..i - 1]), answers[i - 1], cs, c.backend, i - 1);
    }
  }

  /** With a fixed registry the first live node of the plan serves; if there is none the client gets
      an error after every node of the plan has been tried, and the session is left as said. */
  lemma FallbackWalksThePlan(session: string, urls: seq<string>, c: Choice, answers: seq<Answer>, cs: seq<Backend>, live: set<string>)
    requires |answers| >= 3 && Answering(session, urls, Begin(c), answers, cs, live) && DistinctNames(cs) && c.backend in cs
    requires Pinned(c.pins, session) == c.backend.name
    ensures var k, plan := LoopAfter(session, urls, Begin(c), answers), Plan(cs, c.backend.name);
      var j := FirstLive(plan, live);
      if j < |plan| then Serves(session, k, plan, j) else GivesUp(session, k, plan, LeftPinned(cs, c.backend.name))
  {
    var plan := Plan(cs, c.backend.name);
    var j := FirstLive(plan, live);
    var i := if j < |plan| then j else |plan| - 1;
    var k := LoopAfter(session, urls, Begin(c), answers[..i]);
    Walks(session, urls, c, answers, cs, live, i);
    PinFollowsAttempts(session, urls, c, answers[..i]);
    AfterTurn(session, urls, Begin(c), answers, i);
    if j < |plan| {
      LiveTurn(session, urls, k, answers[i], plan, i);
    } else {
      DeadTurn(session, urls, k, answers[i], cs, c.backend, i);
    }
    OverStays(session, urls, Begin(c), answers, i + 1);
  }

  /** "Falls back to another live node" holds of a request exactly when the node selected or one of
      the first two in load order is live. */
  lemma ServedIffLiveIsTried(session: string, urls: seq<string>, c: Choice, answers: seq<Answer>, cs: seq<Backend>, live: set<string>)
    requires |answers| >= 3 && Answering(session, urls, Begin(c), answers, cs, live) && DistinctNames(cs) && c.backend in cs
    requires Pinned(c.pins, session) == c.backend.name
    ensures var k := LoopAfter(session, urls, Begin(c), answers);
      && k.Over? && (k.served <==> Tried(cs, c.backend.name) * live != {})
      && (k.served ==> k.backend.name in live) && (!k.served ==> EndsInError(k.sent))
  {
    var plan := Plan(cs, c.backend.name);
    FallbackWalksThePlan(session, urls, c, answers, cs, live);
    if FirstLive(plan, live) < |plan| {
      assert plan[FirstLive(plan, live)] in Tried(cs, c.backend.name) * live;
    }
  }

  /** With every attempt failing, the router gives up within three attempts, having tried exactly
      the plan; it is then pinned to the node tried last only if no other is listed. */
  lemma GivesUpAfter(session: string, urls: seq<string>, c: Choice, answers: seq<Answer>, cs: seq<Backend>)
    requires |answers| >= 3 && AllFail(urls, answers, cs) && DistinctNames(cs) && c.backend in cs
    requires Pinned(c.pins, session) == c.backend.name
    ensures var k := LoopAfter(session, urls, Begin(c), answers);
      && GivesUp(session, k, Plan(cs, c.backend.name), LeftPinned(cs, c.backend.name))
      && (Pinned(k.pins, session) == k.backend.name <==> |cs| == 1)
  {
    FallbackWalksThePlan(session, urls, c, answers, cs, {});
    SortPermutes(cs, ByLoad());
    if |cs| >= 2 {
      FirstTwo(cs);
    }
  }

  // -------------------------------------------------------- when that is everyone

  lemma {:induction false} NamesCount(cs: seq<Backend>)
    requires DistinctNames(cs)
    ensures |NamesOf(cs)| == |cs|
  {
    if |cs| == 0 {
    } else {
      var n := |cs| - 1;
      NamesCount(cs[..n]);
      assert NamesOf(cs) == NamesOf(cs[..n]) + {cs[n].name} by {
        forall i | 0 <= i < n ensures cs[i].name in NamesOf(cs[..n]) {
          assert cs[..n][i] == cs[i];
        }
      }
    }
  }

  lemma TriedSubset(cs: seq<Backend>, start: Backend)
    requires DistinctNames(cs) && start in cs
    ensures Tried(cs, start.name) <= NamesOf(cs)
  {
    SortPermutes(cs, ByLoad());
    TriedIs(cs, start.name);
    if |cs| >= 2 {
      FirstTwo(cs);
    }
    forall b | b in cs ensures b.name in NamesOf(cs) {
      var i :| 0 <= i < |cs| && cs[i] == b;
    }
  }

  lemma SubsetIsAll(a: set<string>, b: set<string>)
    requires a <= b && |a| >= |b|
    ensures a == b
  {
    assert |b - a| == |b| - |a|;
  }

  lemma ThreeInSet(a: string, b: string, c: string)
    requires a != b
    ensures |{a, b, c}| == if c == a || c == b then 2 else 3
  {
    assert {a, b, c} == {a, b} + {c};
    assert |{a, b}| == 2;
    if c == a || c == b {
      assert {a, b, c} == {a, b};
    }
  }

  lemma TriedIs(cs: seq<Backend>, start: string)
    ensures var o := Sort(cs, ByLoad());
      Tried(cs, start) == if |o| < 2 then {start} else {start, o[0].name, o[1].name}
  {
  }

  lemma TriedCount(cs: seq<Backend>, start: Backend)
    requires DistinctNames(cs) && start in cs && |Sort(cs, ByLoad())| == |cs|
    ensures var o := Sort(cs, ByLoad());
      |Tried(cs, start.name)| == if |cs| < 2 then 1 else if start == o[0] || start == o[1] then 2 else 3
  {
    var o := Sort(cs, ByLoad());
    TriedIs(cs, start.name);
    if |cs| >= 2 {
      FirstTwo(cs);
      SameName(cs, o[0], start);
      SameName(cs, o[1], start);
      ThreeInSet(o[0].name, o[1].name, start.name);
      assert Tried(cs, start.name) == {o[0].name, o[1].name, start.name};
    }
  }

  lemma TriedIsAllIff(cs: seq<Backend>, start: Backend)
    requires DistinctNames(cs) && start in cs && |Sort(cs, ByLoad())| == |cs|
    ensures var o := Sort(cs, ByLoad());
      Tried(cs, start.name) == NamesOf(cs) <==> |cs| <= 2 || (|cs| == 3 && start != o[0] && start != o[1])
  {
    NamesCount(cs);
    TriedSubset(cs, start);
    TriedCount(cs, start);
    if |Tried(cs, start.name)| >= |NamesOf(cs)| {
      SubsetIsAll(Tried(cs, start.name), NamesOf(cs));
    }
  }

  lemma SameName(cs: seq<Backend>, a: Backend, b: Backend)
    requires DistinctNames(cs) && a in cs && b in cs
    ensures a.name == b.name <==> a == b
  {
  }

  /** Every listed node is tried if all fail exactly here; in particular for two listed nodes, and
      never for four. */
  lemma TriesAllIff(session: string, urls: seq<string>, c: Choice, answers: seq<Answer>, cs: seq<Backend>)
    requires |answers| >= 3 && AllFail(urls, answers, cs) && DistinctNames(cs) && c.backend in cs
    requires Pinned(c.pins, session) == c.backend.name
    ensures var o := Sort(cs, ByLoad());
      |o| == |cs| &&
      (LoopAfter(session, urls, Begin(c), answers).attempted == NamesOf(cs) <==>
        |cs| <= 2 || (|cs| == 3 && c.backend != o[0] && c.backend != o[1]))
  {
    GivesUpAfter(session, urls, c, answers, cs);
    SortPermutes(cs, ByLoad());
    TriedIsAllIff(cs, c.backend);
  }

  /** The promise as such: whichever listed nodes are live, one of them serves. It holds of a registry
      and a selected node exactly under the same condition. */
  lemma LiveNodeServesIff(cs: seq<Backend>, start: Backend)
    requires DistinctNames(cs) && start in cs
    ensures var o := Sort(cs, ByLoad());
      |o| == |cs| &&
      ((forall live: set<string> :: NamesOf(cs) * live != {} ==> Tried(cs, start.name) * live != {}) <==>
        |cs| <= 2 || (|cs| == 3 && start != o[0] && start != o[1]))
  {
    SortPermutes(cs, ByLoad());
    TriedIsAllIff(cs, start);
    TriedSubset(cs, start);
    var all, tried := NamesOf(cs), Tried(cs, start.name);
    var live := all - tried;
    assert all == tried + live && tried * live == {} && all * live == live;
  }

  /** After a cache miss the least-loaded node is selected, so only the first two are ever tried. */
  lemma MissTriesTwo(session: string, urls: seq<string>, pins: Pins, answers: seq<Answer>, cs: seq<Backend>)
    requires |answers| >= 3 && AllFail(urls, answers, cs) && DistinctNames(cs) && |cs| > 0
    requires PickDecode(cs, pins, session).decision.CacheMiss?
    ensures LoopAfter(session, urls, Begin(PickDecode(cs, pins, session)), answers).attempted == NamesOf(cs) <==> |cs| <= 2
  {
    DecodeIsSticky(cs, pins, session);
    TriesAllIff(session, urls, PickDecode(cs, pins, session), answers, cs);
  }

  lemma SortedStays(cs: seq<Backend>)
    requires Sorted(cs, ByLoad())
    ensures Sort(cs, ByLoad()) == cs
  {
    SortIsStable(cs, ByLoad());
    StableSortIsUnique(Sort(cs, ByLoad()), cs, ByLoad());
  }

  /** Three nodes, listed in load order, and a session that is not pinned. */
  ghost predicate ThreeNodes(cs: seq<Backend>) {
    && |cs| == 3
    && cs[0] == Backend("a", "", 0, 0, 0.0) && cs[1] == Backend("b", "", 1, 0, 0.0) && cs[2] == Backend("c", "", 2, 0, 0.0)
  }

  lemma ThreeNames(cs: seq<Backend>)
    requires ThreeNodes(cs)
    ensures NamesOf(cs) == {"a", "b", "c"} && DistinctNames(cs)
  {
    assert cs[0].name in NamesOf(cs) && cs[1].name in NamesOf(cs) && cs[2].name in NamesOf(cs);
    assert "a"[0] != "b"[0] && "b"[0] != "c"[0] && "a"[0] != "c"[0];
  }

  lemma SortedMiss(cs: seq<Backend>, pins: Pins, session: string)
    requires Sorted(cs, ByLoad()) && |cs| > 0 && session !in pins
    ensures PickDecode(cs, pins, session) == Choice(cs[0], CacheMiss, pins[session := cs[0].name])
  {
    SortedStays(cs);
  }

  lemma SortedPlan(cs: seq<Backend>)
    requires Sorted(cs, ByLoad()) && |cs| >= 2
    ensures Plan(cs, cs[0].name) == [cs[0].name, cs[1].name]
    ensures LeftPinned(cs, cs[0].name) == cs[0].name
  {
    SortedStays(cs);
  }

  lemma NeitherLive(plan: seq<string>, live: set<string>)
    requires |plan| == 2 && plan[0] !in live && plan[1] !in live
    ensures FirstLive(plan, live) == 2
  {
  }

  lemma ThreePlan(cs: seq<Backend>, live: set<string>)
    requires ThreeNodes(cs) && live == {"c"}
    ensures var plan := Plan(cs, cs[0].name);
      && |plan| == 2 && plan[0] == "a" && plan[1] == "b" && SetOf(plan) == {"a", "b"}
      && LeftPinned(cs, cs[0].name) == "a" && FirstLive(plan, live) == 2
  {
    SortedPlan(cs);
    NeitherLive(Plan(cs, cs[0].name), live);
  }

  /** Only the third node is live, idle enough to serve, and it is never tried: the client gets an
      error, and the session is left pinned to "a", which failed before "b" did. */
  lemma UntriedNode(session: string, urls: seq<string>, pins: Pins, cs: seq<Backend>, answers: seq<Answer>, live: set<string>)
    requires ThreeNodes(cs) && session !in pins && |answers| >= 3 && live == {"c"}
    requires Answering(session, urls, Begin(PickDecode(cs, pins, session)), answers, cs, live)
    ensures var k := LoopAfter(session, urls, Begin(PickDecode(cs, pins, session)), answers);
      && k.Over? && !k.served && EndsInError(k.sent)
      && k.attempted == {"a", "b"} && NamesOf(cs) == {"a", "b", "c"}
      && k.backend.name == "b" && Pinned(k.pins, session) == "a"
  {
    ThreeNames(cs);
    SortedMiss(cs, pins, session);
    ThreePlan(cs, live);
    FallbackWalksThePlan(session, urls, PickDecode(cs, pins, session), answers, cs, live);
  }
}
