/** The router's decode loop: relay, detect failure, fall back, give up. */
module Router {
  import opened Prelude
  import opened Frames
  import opened Routing

  // ---------------------------------------------------------------- values

  /** What the world gives one attempt: the frames that arrive before the stream ends or breaks,
      the words for the failure if it is one, the registry as the fallback lookup finds it, and the
      pins as requests of other sessions have left them by then. */
  datatype Answer = Answer(frames: seq<Frame>, error: string, listed: seq<Backend>, others: Pins)

  /** Requests counted ok, error and fallback, and first tokens timed. */
  datatype Tally = Tally(ok: nat, error: nat, fallback: nat, firstTokens: nat)

  datatype Loop =
    | Trying(backend: Backend, attempted: set<string>, pins: Pins, sent: seq<Out>, tally: Tally)
    | Over(backend: Backend, attempted: set<string>, pins: Pins, sent: seq<Out>, tally: Tally, served: bool)

  function DecodeFailed(error: string): Frame {
    Failure("decode failed: " + error)
  }

  /** The store of pins: this session's pin as its own request left it, all others as others did. */
  function Shared(session: string, own: Pins, others: Pins): (pins: Pins)
    ensures Pinned(pins, session) == Pinned(own, session)
  {
    if session in own then others[session := own[session]] else others - {session}
  }

  // ------------------------------------------------------- one turn of the loop

  function Step(session: string, urls: seq<string>, l: Loop, a: Answer): Loop
    requires l.Trying?
  {
    var attempted := l.attempted + {l.backend.name};
    var shown := Shown(a.frames);
    var sent := l.sent + ToOut(shown);
    var t := if AnyToken(shown) then l.tally.(firstTokens := l.tally.firstTokens + 1) else l.tally;
    var store := Shared(session, l.pins, a.others);
    if Complete(a.frames)
    then Over(l.backend, attempted, store, sent + [Done], t.(ok := t.ok + 1), true)
    else
      var fb := PickFallback(Candidates("decode", a.listed, urls), l.backend.name);
      var pins := if fb.Some? then store[session := fb.value.name] else store;
      if fb.None? || fb.value.name in attempted
      then Over(l.backend, attempted, pins, sent + [Sse(DecodeFailed(a.error)), Done], t.(error := t.error + 1), false)
      else Trying(fb.value, attempted, pins, sent, t.(fallback := t.fallback + 1))
  }

  function LoopAfter(session: string, urls: seq<string>, l: Loop, answers: seq<Answer>): Loop {
    if |answers| == 0 then l
    else
      var k := LoopAfter(session, urls, l, answers[..|answers| - 1]);
      if k.Trying? then Step(session, urls, k, answers[|answers| - 1]) else k
  }

  function Begin(c: Choice): Loop {
    Trying(c.backend, {}, c.pins, [], Tally(0, 0, 0, 0))
  }

  // --------------------------------------------------------------- termination

  function NamesOf(cs: seq<Backend>): set<string> {
    set i | 0 <= i < |cs| :: cs[i].name
  }

  /** The registry may change between calls, but its names come from a finite universe. */
  ghost predicate Within(urls: seq<string>, answers: seq<Answer>, universe: set<string>) {
    forall i :: 0 <= i < |answers| ==> NamesOf(Candidates("decode", answers[i].listed, urls)) <= universe
  }

  ghost predicate NewName(l: Loop, universe: set<string>) {
    && l.attempted <= universe
    && l.backend.name in universe
    && (l.Trying? ==> l.backend.name !in l.attempted)
  }

  lemma FallbackInUniverse(cs: seq<Backend>, exclude: string, universe: set<string>)
    requires NamesOf(cs) <= universe && PickFallback(cs, exclude).Some?
    ensures PickFallback(cs, exclude).value.name in universe
    ensures PickFallback(cs, exclude).value.name != exclude
  {
    FallbackIsLeastLoadedOther(cs, exclude);
    var b := PickFallback(cs, exclude).value;
    var i :| 0 <= i < |cs| && cs[i] == b;
    assert cs[i].name in NamesOf(cs);
  }

  /** One attempt: to a name not tried before, and a fallback counted if another follows. */
  lemma AttemptIsNew(session: string, urls: seq<string>, l: Loop, a: Answer, universe: set<string>)
    requires l.Trying? && NewName(l, universe) && NamesOf(Candidates("decode", a.listed, urls)) <= universe
    ensures var k := Step(session, urls, l, a);
      && NewName(k, universe) && |k.attempted| == |l.attempted| + 1
      && k.tally.fallback == l.tally.fallback + (if k.Over? then 0 else 1)
  {
    var cs := Candidates("decode", a.listed, urls);
    if PickFallback(cs, l.backend.name).Some? {
      FallbackInUniverse(cs, l.backend.name, universe);
    }
  }

  /** Every attempt goes to a new name, whatever candidates each call returns. */
  lemma {:induction false} EveryAttemptIsNew(session: string, urls: seq<string>, l: Loop, answers: seq<Answer>, universe: set<string>)
    requires l.Trying? && NewName(l, universe) && Within(urls, answers, universe)
    ensures var k := LoopAfter(session, urls, l, answers);
      && NewName(k, universe)
      && (k.Trying? ==> |k.attempted| == |l.attempted| + |answers|)
      && |k.attempted| <= |l.attempted| + |answers|
      && k.tally.fallback - l.tally.fallback == |k.attempted| - |l.attempted| - (if k.Over? then 1 else 0)
  {
    if |answers| == 0 {
    } else {
      var n := |answers| - 1;
      assert Within(urls, answers[..n], universe) by {
        assert forall i :: 0 <= i < n ==> answers[..n][i] == answers[i];
      }
      EveryAttemptIsNew(session, urls, l, answers[..n], universe);
      var k := LoopAfter(session, urls, l, answers[..n]);
      if k.Trying? {
        AttemptIsNew(session, urls, k, answers[n], universe);
      }
    }
  }

  lemma SubsetSize(a: set<string>, b: set<string>)
    requires a <= b
    ensures |a| <= |b|
  {
    assert b == a + (b - a);
  }

  /** So the loop is over after as many attempts as there are names. */
  lemma FallbackTerminates(session: string, urls: seq<string>, c: Choice, answers: seq<Answer>, universe: set<string>)
    requires c.backend.name in universe && Within(urls, answers, universe) && |answers| >= |universe|
    ensures LoopAfter(session, urls, Begin(c), answers).Over?
  {
    EveryAttemptIsNew(session, urls, Begin(c), answers, universe);
    var k := LoopAfter(session, urls, Begin(c), answers);
    if k.Trying? {
      SubsetSize(k.attempted + {k.backend.name}, universe);
    }
  }

  // ------------------------------------------------------------------- pins

  /** The pin names the backend being tried; on success the one that served; on giving up
      one of those attempted. */
  ghost predicate PinAgrees(session: string, l: Loop) {
    && (l.Trying? || l.served ==> Pinned(l.pins, session) == l.backend.name)
    && (l.Over? ==> Pinned(l.pins, session) in l.attempted && l.backend.name in l.attempted)
  }

  lemma {:induction false} PinFollowsAttempts(session: string, urls: seq<string>, c: Choice, answers: seq<Answer>)
    requires Pinned(c.pins, session) == c.backend.name
    ensures PinAgrees(session, LoopAfter(session, urls, Begin(c), answers))
  {
    if |answers| == 0 {
    } else {
      PinFollowsAttempts(session, urls, c, answers[..|answers| - 1]);
    }
  }

  /** The loop moves no other session's pin. */
  lemma OthersKeepTheirPins(session: string, urls: seq<string>, l: Loop, a: Answer)
    requires l.Trying?
    ensures forall s :: s != session ==> Pinned(Step(session, urls, l, a).pins, s) == Pinned(a.others, s)
  {
  }

  // ----------------------------------------------------------- what the client sees

  function AllShown(answers: seq<Answer>): seq<Frame> {
    if |answers| == 0 then [] else AllShown(answers[..|answers| - 1]) + Shown(answers[|answers| - 1].frames)
  }

  /** The loop uses up all these answers: the last of them ends it. */
  ghost predicate Ends(session: string, urls: seq<string>, l: Loop, answers: seq<Answer>) {
    && |answers| > 0
    && LoopAfter(session, urls, l, answers[..|answers| - 1]).Trying?
    && LoopAfter(session, urls, l, answers).Over?
  }

  /** A turn after which the loop goes on. */
  lemma TryingOn(session: string, urls: seq<string>, l: Loop, a: Answer)
    requires l.Trying? && Step(session, urls, l, a).Trying?
    ensures var k := Step(session, urls, l, a);
      && !Complete(a.frames) && PickFallback(Candidates("decode", a.listed, urls), l.backend.name) == Some(k.backend)
      && k.attempted == l.attempted + {l.backend.name} && k.backend.name !in k.attempted
  {
  }

  /** While it is still trying, the client has seen each failed attempt's frames in turn. */
  lemma {:induction false} TryingSent(session: string, urls: seq<string>, c: Choice, answers: seq<Answer>)
    requires LoopAfter(session, urls, Begin(c), answers).Trying?
    ensures LoopAfter(session, urls, Begin(c), answers).sent == ToOut(AllShown(answers))
    ensures forall i :: 0 <= i < |answers| ==> !Complete(answers[i].frames)
  {
    if |answers| == 0 {
    } else {
      var n := |answers| - 1;
      TryingSent(session, urls, c, answers[..n]);
      TryingOn(session, urls, LoopAfter(session, urls, Begin(c), answers[..n]), answers[n]);
      ToOutConcat(AllShown(answers[..n]), Shown(answers[n].frames));
      forall i | 0 <= i < n ensures !Complete(answers[i].frames) {
        assert answers[i] == answers[..n][i];
      }
    }
  }

  lemma {:induction false} NoneLast(answers: seq<Answer>)
    requires forall i :: 0 <= i < |answers| ==> !Complete(answers[i].frames)
    ensures forall i :: 0 <= i < |AllShown(answers)| ==> !IsLast(AllShown(answers)[i])
  {
    if |answers| == 0 {
    } else {
      NoneLast(answers[..|answers| - 1]);
      ShownNone(answers[|answers| - 1].frames);
    }
  }

  /** What the attempt that ends the stream adds to it, the end marker left out. */
  function Ending(a: Answer): seq<Frame> {
    Shown(a.frames) + if Complete(a.frames) then [] else [DecodeFailed(a.error)]
  }

  /** The frames of a finished stream. */
  function Body(answers: seq<Answer>): seq<Frame>
    requires |answers| > 0
  {
    AllShown(answers[..|answers| - 1]) + Ending(answers[|answers| - 1])
  }

  lemma EndingShape(a: Answer)
    ensures var e := Ending(a);
      |e| > 0 && IsLast(e[|e| - 1]) && forall i :: 0 <= i < |e| - 1 ==> !IsLast(e[i])
  {
    if Complete(a.frames) {
      ShownComplete(a.frames);
    } else {
      ShownNone(a.frames);
    }
  }

  /** One frame, the last, carries a finish reason. */
  lemma BodyShape(answers: seq<Answer>)
    requires |answers| > 0 && forall i :: 0 <= i < |answers| - 1 ==> !Complete(answers[i].frames)
    ensures var body := Body(answers);
      |body| > 0 && IsLast(body[|body| - 1]) && forall i :: 0 <= i < |body| - 1 ==> !IsLast(body[i])
  {
    var n := |answers| - 1;
    var before, ending := AllShown(answers[..n]), Ending(answers[n]);
    NoneLast(answers[..n]);
    EndingShape(answers[n]);
    assert forall i :: 0 <= i < |ending| ==> Body(answers)[|before| + i] == ending[i];
    assert forall i :: |before| <= i < |Body(answers)| ==> Body(answers)[i] == ending[i - |before|];
  }

  lemma FinalTurn(session: string, urls: seq<string>, k: Loop, a: Answer, before: seq<Frame>)
    requires k.Trying? && k.sent == ToOut(before) && Step(session, urls, k, a).Over?
    ensures Step(session, urls, k, a).sent == ToOut(before + Ending(a)) + [Done]
    ensures Step(session, urls, k, a).served == Complete(a.frames)
  {
    var shown := Shown(a.frames);
    ToOutConcat(before, shown);
    if Complete(a.frames) {
      assert Ending(a) == shown;
    } else {
      var failed := DecodeFailed(a.error);
      ToOutConcat(before + shown, [failed]);
      assert before + shown + [failed] == before + Ending(a);
      assert k.sent + ToOut(shown) + [Sse(failed), Done] == ToOut(before + shown) + ToOut([failed]) + [Done];
    }
  }

  /** A finished stream: the failed attempts' frames, then either the serving attempt's frames up to
      its finish frame or the last failure's frames and one error frame; exactly one frame, the
      last, carries a finish reason; one Done follows and nothing more. */
  lemma StreamEnds(session: string, urls: seq<string>, c: Choice, answers: seq<Answer>)
    requires Ends(session, urls, Begin(c), answers)
    ensures var k, body := LoopAfter(session, urls, Begin(c), answers), Body(answers);
      && k.sent == ToOut(body) + [Done]
      && k.served == Complete(answers[|answers| - 1].frames)
      && |body| > 0 && IsLast(body[|body| - 1])
      && (forall i :: 0 <= i < |body| - 1 ==> !IsLast(body[i]))
      && (forall i :: 0 <= i < |answers| - 1 ==> !Complete(answers[i].frames))
  {
    var n := |answers| - 1;
    TryingSent(session, urls, c, answers[..n]);
    FinalTurn(session, urls, LoopAfter(session, urls, Begin(c), answers[..n]), answers[n], AllShown(answers[..n]));
    assert forall i :: 0 <= i < n ==> answers[..n][i] == answers[i];
    BodyShape(answers);
  }

  /** On giving up the session stays pinned to the backend tried last exactly when the last lookup
      lists no other: with another listed, the pin has already moved on to one that failed before. */
  lemma PinStaysIff(session: string, urls: seq<string>, c: Choice, answers: seq<Answer>)
    requires Pinned(c.pins, session) == c.backend.name && Ends(session, urls, Begin(c), answers)
    requires !LoopAfter(session, urls, Begin(c), answers).served
    ensures var k, listed := LoopAfter(session, urls, Begin(c), answers), Candidates("decode", answers[|answers| - 1].listed, urls);
      Pinned(k.pins, session) == k.backend.name <==> forall b :: b in listed ==> b.name == k.backend.name
  {
    var n := |answers| - 1;
    var l, cs := LoopAfter(session, urls, Begin(c), answers[..n]), Candidates("decode", answers[n].listed, urls);
    PinFollowsAttempts(session, urls, c, answers[..n]);
    FallbackIsLeastLoadedOther(cs, l.backend.name);
  }

  /** One ok or one error per finished stream, never both; one fallback per further attempt;
      and at most one first-token timing per attempt. */
  lemma {:induction false} OutcomeCounts(session: string, urls: seq<string>, c: Choice, answers: seq<Answer>)
    ensures var k := LoopAfter(session, urls, Begin(c), answers);
      && k.tally.ok == (if k.Over? && k.served then 1 else 0)
      && k.tally.error == (if k.Over? && !k.served then 1 else 0)
      && k.tally.firstTokens <= k.tally.fallback + (if k.Over? then 1 else 0)
  {
    if |answers| == 0 {
    } else {
      OutcomeCounts(session, urls, c, answers[..|answers| - 1]);
    }
  }

  // ------------------------------------------------ the loop, told by its attempts

  function FallbackAfter(urls: seq<string>, a: Answer, failed: Backend): Option<Backend> {
    PickFallback(Candidates("decode", a.listed, urls), failed.name)
  }

  /** The backends tried, one per answer and under different names: the selected one, then after each
      failure the fallback; the last of them finishes, or leaves no backend not yet tried. */
  ghost predicate IsTrail(urls: seq<string>, first: Backend, answers: seq<Answer>, tried: seq<Backend>) {
    && |tried| == |answers| > 0 && IsTrailTo(urls, first, answers, tried)
    && var last := answers[|tried| - 1];
      Complete(last.frames) || var fb := FallbackAfter(urls, last, tried[|tried| - 1]);
        fb.None? || Among(tried, fb.value.name)
  }

  ghost predicate Among(bs: seq<Backend>, name: string) {
    exists i :: 0 <= i < |bs| && bs[i].name == name
  }

  lemma AmongNext(bs: seq<Backend>, b: Backend, name: string)
    ensures Among(bs + [b], name) <==> Among(bs, name) || b.name == name
  {
    if Among(bs, name) {
      var i :| 0 <= i < |bs| && bs[i].name == name;
      assert (bs + [b])[i].name == name;
    }
    assert (bs + [b])[|bs|] == b;
  }

  /** Each was not among those before it, and took over when the one before it failed. */
  ghost predicate TookOver(urls: seq<string>, answers: seq<Answer>, tried: seq<Backend>, i: nat)
    requires 0 < i < |tried| && i <= |answers|
  {
    && !Among(tried[..i], tried[i].name)
    && !Complete(answers[i - 1].frames)
    && FallbackAfter(urls, answers[i - 1], tried[i - 1]) == Some(tried[i])
  }

  ghost predicate IsTrailTo(urls: seq<string>, first: Backend, answers: seq<Answer>, tried: seq<Backend>) {
    && 0 < |tried| <= |answers| + 1 && tried[0] == first
    && forall i :: 0 < i < |tried| ==> TookOver(urls, answers, tried, i)
  }

  /** One more answer, one more backend. */
  lemma TrailGrows(urls: seq<string>, first: Backend, answers: seq<Answer>, a: Answer, tried: seq<Backend>, b: Backend)
    requires |tried| == |answers| + 1 && IsTrailTo(urls, first, answers, tried)
    requires !Complete(a.frames) && !Among(tried, b.name) && FallbackAfter(urls, a, tried[|answers|]) == Some(b)
    ensures IsTrailTo(urls, first, answers + [a], tried + [b])
  {
    forall i | 0 < i < |tried| + 1 ensures TookOver(urls, answers + [a], tried + [b], i) {
      assert (tried + [b])[..i] == tried[..i];
      assert i < |tried| ==> TookOver(urls, answers, tried, i);
    }
  }

  lemma TrailOfMore(urls: seq<string>, first: Backend, answers: seq<Answer>, tried: seq<Backend>)
    requires |answers| > 0 && IsTrailTo(urls, first, answers[..|answers| - 1], tried)
    ensures IsTrailTo(urls, first, answers, tried)
  {
    forall i | 0 < i < |tried| ensures TookOver(urls, answers, tried, i) {
      assert TookOver(urls, answers[..|answers| - 1], tried, i) && answers[..|answers| - 1][i - 1] == answers[i - 1];
    }
  }

  ghost predicate AreNamesOf(names: set<string>, bs: seq<Backend>) {
    forall name :: name in names <==> Among(bs, name)
  }

  lemma NamesGrow(names: set<string>, bs: seq<Backend>, b: Backend)
    requires AreNamesOf(names, bs)
    ensures AreNamesOf(names + {b.name}, bs + [b])
  {
    forall name ensures name in names + {b.name} <==> Among(bs + [b], name) {
      AmongNext(bs, b, name);
    }
  }

  /** The backends tried before the one being tried. */
  lemma {:induction false} TrailSoFar(session: string, urls: seq<string>, c: Choice, answers: seq<Answer>) returns (before: seq<Backend>)
    requires LoopAfter(session, urls, Begin(c), answers).Trying?
    ensures var k := LoopAfter(session, urls, Begin(c), answers);
      |before| == |answers| && IsTrailTo(urls, c.backend, answers, before + [k.backend]) && AreNamesOf(k.attempted, before)
  {
    if |answers| == 0 {
      before := [];
    } else {
      var n := |answers| - 1;
      var tried := TrailSoFar(session, urls, c, answers[..n]);
      var k, k' := LoopAfter(session, urls, Begin(c), answers[..n]), LoopAfter(session, urls, Begin(c), answers);
      before := tried + [k.backend];
      TryingOn(session, urls, k, answers[n]);
      NamesGrow(k.attempted, tried, k.backend);
      assert !Among(before, k'.backend.name);
      assert answers == answers[..n] + [answers[n]];
      TrailGrows(urls, c.backend, answers[..n], answers[n], before, k'.backend);
    }
  }

  /** The attempts that showed the client a token, by number. */
  ghost function ShowedToken(answers: seq<Answer>): set<int> {
    set i | 0 <= i < |answers| && ShowsToken(answers[i].frames)
  }

  lemma ShowedTokenNext(answers: seq<Answer>)
    requires |answers| > 0
    ensures var n := |answers| - 1;
      |ShowedToken(answers)| == |ShowedToken(answers[..n])| + if ShowsToken(answers[n].frames) then 1 else 0
  {
    var n := |answers| - 1;
    assert forall i :: 0 <= i < n ==> answers[..n][i] == answers[i];
    assert ShowedToken(answers) == ShowedToken(answers[..n]) + if ShowsToken(answers[n].frames) then {n} else {};
  }

  lemma {:induction false} TallySoFar(session: string, urls: seq<string>, c: Choice, answers: seq<Answer>)
    requires LoopAfter(session, urls, Begin(c), answers).Trying?
    ensures LoopAfter(session, urls, Begin(c), answers).tally == Tally(0, 0, |answers|, |ShowedToken(answers)|)
  {
    if |answers| == 0 {
    } else {
      TallySoFar(session, urls, c, answers[..|answers| - 1]);
      ShowedTokenNext(answers);
      ShowsTokenIff(answers[|answers| - 1].frames);
    }
  }

  /** What a request that ended adds to the counters. */
  lemma TallyEnds(session: string, urls: seq<string>, c: Choice, answers: seq<Answer>)
    requires Ends(session, urls, Begin(c), answers)
    ensures var done := Complete(answers[|answers| - 1].frames);
      LoopAfter(session, urls, Begin(c), answers).tally
      == Tally(if done then 1 else 0, if done then 0 else 1, |answers| - 1, |ShowedToken(answers)|)
  {
    TallySoFar(session, urls, c, answers[..|answers| - 1]);
    ShowedTokenNext(answers);
    ShowsTokenIff(answers[|answers| - 1].frames);
  }

  /** The backends tried, and where the session's pin and the others' are left. */
  lemma TrailEnds(session: string, urls: seq<string>, c: Choice, answers: seq<Answer>) returns (tried: seq<Backend>)
    requires Ends(session, urls, Begin(c), answers) && Pinned(c.pins, session) == c.backend.name
    ensures IsTrail(urls, c.backend, answers, tried)
    ensures var n, pins := |answers| - 1, LoopAfter(session, urls, Begin(c), answers).pins;
      var fb := FallbackAfter(urls, answers[n], tried[n]);
      && Pinned(pins, session) == (if Complete(answers[n].frames) || fb.None? then tried[n].name else fb.value.name)
      && forall s :: s != session ==> Pinned(pins, s) == Pinned(answers[n].others, s)
  {
    var n := |answers| - 1;
    var before := TrailSoFar(session, urls, c, answers[..n]);
    var k := LoopAfter(session, urls, Begin(c), answers[..n]);
    tried := before + [k.backend];
    NamesGrow(k.attempted, before, k.backend);
    TrailOfMore(urls, c.backend, answers, tried);
    PinFollowsAttempts(session, urls, c, answers[..n]);
    OthersKeepTheirPins(session, urls, k, answers[n]);
    assert !Complete(answers[n].frames) ==> var fb := FallbackAfter(urls, answers[n], tried[n]);
      fb.None? || fb.value.name in k.attempted + {k.backend.name};
  }

  // ------------------------------------------------------------- the service

  datatype Prefill = Prefilled | PrefillFailed(error: string)

  datatype Reply = Unavailable(error: string) | Stream(sent: seq<Out>)

  const NO_PREFILL := "no prefill backends available"
  const NO_DECODE := "no decode backends available"

  /** A whole request: the reply, the pins after it, and what it adds to the counters. */
  datatype Handling = Handling(reply: Reply, pins: Pins, tally: Tally)

  function Handled(session: string, prefills: seq<Backend>, prefill: Prefill, cs: seq<Backend>, pins: Pins,
                   urls: seq<string>, answers: seq<Answer>): Handling {
    if |prefills| == 0 then Handling(Unavailable(NO_PREFILL), pins, Tally(0, 1, 0, 0))
    else if prefill.PrefillFailed? then
      Handling(Reply.Stream([Sse(Failure("prefill failed: " + prefill.error)), Done]), pins, Tally(0, 1, 0, 0))
    else if |cs| == 0 then Handling(Reply.Stream([Sse(Failure(NO_DECODE)), Done]), pins, Tally(0, 0, 0, 0))
    else
      var k := LoopAfter(session, urls, Begin(PickDecode(cs, pins, session)), answers);
      Handling(Reply.Stream(k.sent), k.pins, k.tally)
  }

  predicate ReachesLoop(prefills: seq<Backend>, prefill: Prefill, cs: seq<Backend>) {
    |prefills| > 0 && prefill.Prefilled? && |cs| > 0
  }

  /** A request is counted ok or error, and once, exactly when it does not stop between prefill and
      decode for want of a decode backend; otherwise it is not counted at all. */
  lemma CountedOnceIff(session: string, prefills: seq<Backend>, prefill: Prefill, cs: seq<Backend>, pins: Pins,
                       urls: seq<string>, answers: seq<Answer>)
    requires ReachesLoop(prefills, prefill, cs) ==> Ends(session, urls, Begin(PickDecode(cs, pins, session)), answers)
    ensures var t := Handled(session, prefills, prefill, cs, pins, urls, answers).tally;
      && (t.ok + t.error == 1 <==> |prefills| == 0 || prefill.PrefillFailed? || |cs| > 0)
      && (t.ok + t.error != 1 ==> t == Tally(0, 0, 0, 0))
  {
    if ReachesLoop(prefills, prefill, cs) {
      OutcomeCounts(session, urls, PickDecode(cs, pins, session), answers);
    }
  }

  /** A prefill backend and no decode backend: the client gets an error frame, the counters nothing. */
  lemma UncountedRequest(session: string, p: Backend, pins: Pins, answers: seq<Answer>)
    ensures var h := Handled(session, [p], Prefilled, [], pins, [], answers);
      h.reply == Reply.Stream([Sse(Failure(NO_DECODE)), Done]) && h.tally == Tally(0, 0, 0, 0)
  {
  }

  function Plus(a: Tally, b: Tally): Tally {
    Tally(a.ok + b.ok, a.error + b.error, a.fallback + b.fallback, a.firstTokens + b.firstTokens)
  }

  /** The first n answers of the world. */
  function Heard(world: nat -> Answer, n: nat): (answers: seq<Answer>)
    ensures |answers| == n && forall i :: 0 <= i < n ==> answers[i] == world(i)
  {
    seq(n, i requires 0 <= i < n => world(i))
  }

  ghost predicate WorldWithin(urls: seq<string>, world: nat -> Answer, universe: set<string>) {
    forall i: nat :: NamesOf(Candidates("decode", world(i).listed, urls)) <= universe
  }

  /** The loop after n answers. */
  function LoopAt(session: string, urls: seq<string>, c: Choice, world: nat -> Answer, n: nat): Loop {
    LoopAfter(session, urls, Begin(c), Heard(world, n))
  }

  lemma HeardNext(session: string, urls: seq<string>, c: Choice, world: nat -> Answer, n: nat)
    requires LoopAt(session, urls, c, world, n).Trying?
    ensures LoopAt(session, urls, c, world, n + 1) == Step(session, urls, LoopAt(session, urls, c, world, n), world(n))
    ensures LoopAt(session, urls, c, world, n + 1).Over? ==> Ends(session, urls, Begin(c), Heard(world, n + 1))
  {
    assert Heard(world, n + 1)[..n] == Heard(world, n);
  }

  lemma HeardBound(session: string, urls: seq<string>, c: Choice, world: nat -> Answer, n: nat, universe: set<string>)
    requires c.backend.name in universe && WorldWithin(urls, world, universe)
    requires LoopAt(session, urls, c, world, n).Trying?
    ensures n < |universe|
  {
    assert Within(urls, Heard(world, n), universe) by {
      forall i | 0 <= i < n ensures NamesOf(Candidates("decode", Heard(world, n)[i].listed, urls)) <= universe {
        assert Heard(world, n)[i] == world(i);
      }
    }
    if n >= |universe| {
      FallbackTerminates(session, urls, c, Heard(world, n), universe);
    }
  }

  lemma PickedInUniverse(cs: seq<Backend>, pins: Pins, session: string, universe: set<string>)
    requires |cs| > 0 && NamesOf(cs) <= universe
    ensures PickDecode(cs, pins, session).backend.name in universe
  {
    DecodeIsSticky(cs, pins, session);
    var b := PickDecode(cs, pins, session).backend;
    var i :| 0 <= i < |cs| && cs[i] == b;
    assert cs[i].name in NamesOf(cs);
  }

  /** What one turn of the loop needs to know; k is the loop after it. */
  lemma Turn(session: string, urls: seq<string>, c: Choice, world: nat -> Answer, n: nat, universe: set<string>, l: Loop)
    returns (k: Loop)
    requires c.backend.name in universe && WorldWithin(urls, world, universe)
    requires l == LoopAt(session, urls, c, world, n) && l.Trying? && NewName(l, universe)
    ensures k == LoopAt(session, urls, c, world, n + 1) && k == Step(session, urls, l, world(n))
    ensures n < |universe| && NewName(k, universe)
    ensures k.Over? ==> Ends(session, urls, Begin(c), Heard(world, n + 1))
    ensures k.attempted == l.attempted + {l.backend.name}
  {
    k := Step(session, urls, l, world(n));
    HeardBound(session, urls, c, world, n, universe);
    HeardNext(session, urls, c, world, n);
    AttemptIsNew(session, urls, l, world(n), universe);
  }

  function Timed(frames: seq<Frame>): nat {
    if AnyToken(Shown(frames)) then 1 else 0
  }

  lemma StepServes(session: string, urls: seq<string>, l: Loop, a: Answer)
    requires l.Trying? && Complete(a.frames)
    ensures Step(session, urls, l, a)
         == Over(l.backend, l.attempted + {l.backend.name}, Shared(session, l.pins, a.others), l.sent + (ToOut(Shown(a.frames)) + [Done]),
                 Plus(l.tally, Tally(1, 0, 0, Timed(a.frames))), true)
  {
    assert l.sent + ToOut(Shown(a.frames)) + [Done] == l.sent + (ToOut(Shown(a.frames)) + [Done]);
  }

  lemma StepFails(session: string, urls: seq<string>, l: Loop, a: Answer, attempted: set<string>, fb: Option<Backend>)
    requires l.Trying? && !Complete(a.frames) && attempted == l.attempted + {l.backend.name}
    requires fb == PickFallback(Candidates("decode", a.listed, urls), l.backend.name)
    ensures var store, shown, timed := Shared(session, l.pins, a.others), ToOut(Shown(a.frames)), Timed(a.frames);
      var pins := if fb.Some? then store[session := fb.value.name] else store;
      Step(session, urls, l, a) ==
        if fb.None? || fb.value.name in attempted
        then Over(l.backend, attempted, pins, l.sent + (shown + [Sse(DecodeFailed(a.error)), Done]),
                  Plus(l.tally, Tally(0, 1, 0, timed)), false)
        else Trying(fb.value, attempted, pins, l.sent + shown, Plus(l.tally, Tally(0, 0, 1, timed)))
  {
    var shown, last := ToOut(Shown(a.frames)), [Sse(DecodeFailed(a.error)), Done];
    assert l.sent + shown + last == l.sent + (shown + last);
  }

  /** What the stream from the selected backend on amounts to: the backends tried, what was sent, the
      pins it left, and the counters before and after. */
  ghost predicate IsOutcome(session: string, urls: seq<string>, first: Backend, world: nat -> Answer, tried: seq<Backend>,
                            sent: seq<Out>, pins: Pins, before: Tally, after: Tally) {
    && |tried| > 0 && IsTrail(urls, first, Heard(world, |tried|), tried)
    && sent == ToOut(Body(Heard(world, |tried|))) + [Done]
    && var last, failed := world(|tried| - 1), tried[|tried| - 1];
      var served, fb := Complete(last.frames), FallbackAfter(urls, last, failed);
      && Pinned(pins, session) == (if served || fb.None? then failed.name else fb.value.name)
      && (forall s :: s != session ==> Pinned(pins, s) == Pinned(last.others, s))
      && after == Tally(before.ok + (if served then 1 else 0), before.error + (if served then 0 else 1),
                        before.fallback + |tried| - 1, before.firstTokens + |ShowedToken(Heard(world, |tried|))|)
  }

  class RouterService {
    const policy: RoutingPolicy
    var tally: Tally

    constructor (policy: RoutingPolicy)
      ensures this.policy == policy && tally == Tally(0, 0, 0, 0)
    {
      this.policy, tally := policy, Tally(0, 0, 0, 0);
    }

    /** The `async for` over one attempt's frames, up to the return or the end of the stream. */
    method Relay(frames: seq<Frame>) returns (sent: seq<Out>, finished: bool)
      modifies this`tally
      ensures finished == Complete(frames)
      ensures sent == ToOut(Shown(frames)) + if finished then [Done] else []
      ensures tally == Plus(old(tally), Tally(if finished then 1 else 0, 0, 0, Timed(frames)))
    {
      sent, finished := [], false;
      var first := true;
      for i := 0 to |frames|
        invariant !Complete(frames[..i]) && sent == ToOut(frames[..i])
        invariant first == !AnyToken(frames[..i])
        invariant tally == Plus(old(tally), Tally(0, 0, 0, if first then 0 else 1))
      {
        var frame := frames[i];
        ShownStep(frames, i);
        assert frames[..i + 1] == frames[..i] + [frame];
        if first && HasToken(frame) {
          tally := tally.(firstTokens := tally.firstTokens + 1);
          first := false;
        }
        sent := sent + [Sse(frame)];
        if IsLast(frame) {
          tally := tally.(ok := tally.ok + 1);
          sent := sent + [Done];
          assert frames[i] == frame && Complete(frames);
          return sent, true;
        }
      }
      assert frames[..|frames|] == frames;
      ShownNone(frames);
    }

    /** What requests of other sessions do to the pins during an attempt. */
    method OthersAct(session: string, others: Pins)
      modifies policy`pins
      ensures policy.pins == Shared(session, old(policy.pins), others)
    {
      policy.pins := Shared(session, policy.pins, others);
    }

    /** The `except` branch: the fallback choice, and giving up if it leads nowhere new. */
    method Recover(session: string, a: Answer, ghost l: Loop, decodeBackend: Backend, attempted: set<string>)
      returns (last: seq<Out>, next: Option<Backend>)
      requires l.Trying? && l.backend == decodeBackend && attempted == l.attempted + {decodeBackend.name}
      requires policy.pins == Shared(session, l.pins, a.others) && !Complete(a.frames)
      modifies this`tally, policy`pins
      ensures var k := Step(session, policy.decodeUrls, l, a);
        && k.sent == l.sent + (ToOut(Shown(a.frames)) + last) && policy.pins == k.pins
        && (next.Some? <==> k.Trying?) && (next.Some? ==> next.value == k.backend)
        && Plus(Plus(tally, l.tally), Tally(0, 0, 0, Timed(a.frames))) == Plus(old(tally), k.tally)
    {
      next := policy.FallbackDecode(session, decodeBackend.name, a.listed);
      StepFails(session, policy.decodeUrls, l, a, attempted, next);
      if next.None? || next.value.name in attempted {
        tally := tally.(error := tally.error + 1);
        return [Sse(DecodeFailed(a.error)), Done], None;
      }
      tally := tally.(fallback := tally.fallback + 1);
      return [], next;
    }

    /** One turn of the `while True` loop: an attempt and, if it failed, the fallback choice. */
    method Attempt(session: string, a: Answer, ghost l: Loop, decodeBackend: Backend, attempted: set<string>)
      returns (sent: seq<Out>, next: Option<Backend>)
      requires l.Trying? && l.backend == decodeBackend && l.attempted == attempted - {decodeBackend.name}
      requires decodeBackend.name in attempted && policy.pins == l.pins && decodeBackend.name !in l.attempted
      modifies this`tally, policy`pins
      ensures var k := Step(session, policy.decodeUrls, l, a);
        && l.sent + sent == k.sent && policy.pins == k.pins
        && (next.Some? <==> k.Trying?) && (next.Some? ==> next.value == k.backend)
        && Plus(tally, l.tally) == Plus(old(tally), k.tally)
    {
      var finished;
      sent, finished := Relay(a.frames);
      OthersAct(session, a.others);
      assert l.attempted + {l.backend.name} == attempted;
      if finished {
        StepServes(session, policy.decodeUrls, l, a);
        return sent, None;
      }
      var last;
      last, next := Recover(session, a, l, decodeBackend, attempted);
      sent := sent + last;
      assert sent == ToOut(Shown(a.frames)) + last;
    }

    /** The same turn as the n-th of the loop that started with c; l is the loop before it, k after. */
    method NextAttempt(session: string, world: nat -> Answer, n: nat, decodeBackend: Backend, attempted: set<string>,
                       ghost c: Choice, ghost universe: set<string>, ghost l: Loop)
      returns (sent: seq<Out>, next: Option<Backend>, ghost k: Loop)
      requires c.backend.name in universe && WorldWithin(policy.decodeUrls, world, universe)
      requires l == LoopAt(session, policy.decodeUrls, c, world, n) && l.Trying? && NewName(l, universe)
      requires l.backend == decodeBackend && l.attempted == attempted - {decodeBackend.name} && decodeBackend.name in attempted
      requires policy.pins == l.pins
      modifies this`tally, policy`pins
      ensures n < |universe| && k == LoopAt(session, policy.decodeUrls, c, world, n + 1)
      ensures l.sent + sent == k.sent && policy.pins == k.pins && k.attempted == attempted
      ensures if next.Some? then k.Trying? && next.value == k.backend && NewName(k, universe)
              else k.Over? && Ends(session, policy.decodeUrls, Begin(c), Heard(world, n + 1))
      ensures Plus(tally, l.tally) == Plus(old(tally), k.tally)
    {
      k := Turn(session, policy.decodeUrls, c, world, n, universe, l);
      assert l.attempted + {decodeBackend.name} == attempted;
      sent, next := Attempt(session, world(n), l, decodeBackend, attempted);
    }

    /** The `while True` loop, which is what the loop function gives. */
    method TryInTurn(session: string, backend: Backend, world: nat -> Answer, ghost c: Choice, ghost universe: set<string>)
      returns (sent: seq<Out>, ghost n: nat)
      requires c.backend == backend && policy.pins == c.pins
      requires backend.name in universe && WorldWithin(policy.decodeUrls, world, universe)
      modifies this`tally, policy`pins
      ensures 0 < n <= |universe| && Ends(session, policy.decodeUrls, Begin(c), Heard(world, n))
      ensures var k := LoopAt(session, policy.decodeUrls, c, world, n);
        sent == k.sent && policy.pins == k.pins && tally == Plus(old(tally), k.tally)
    {
      var decodeBackend, attempted, i := backend, {}, 0;
      sent := [];
      ghost var l := Begin(c);
      while true
        invariant l == LoopAt(session, policy.decodeUrls, c, world, i) && l.Trying? && NewName(l, universe)
        invariant l.backend == decodeBackend && l.attempted == attempted && l.sent == sent
        invariant policy.pins == l.pins && tally == Plus(old(tally), l.tally)
        decreases |universe| - i
      {
        attempted := attempted + {decodeBackend.name};
        var more, next;
        more, next, l := NextAttempt(session, world, i, decodeBackend, attempted, c, universe, l);
        sent, i := sent + more, i + 1;
        if next.None? {
          n := i;
          return;
        }
        decodeBackend := next.value;
      }
    }

    /** The stream once a decode backend is selected. It ends, after at most as many attempts as
        there are backend names; `tried` lists those it went to. */
    method StreamDecode(session: string, backend: Backend, world: nat -> Answer, ghost c: Choice, ghost universe: set<string>)
      returns (sent: seq<Out>, ghost tried: seq<Backend>)
      requires c.backend == backend && policy.pins == c.pins && Pinned(c.pins, session) == backend.name
      requires backend.name in universe && WorldWithin(policy.decodeUrls, world, universe)
      modifies this`tally, policy`pins
      ensures 0 < |tried| <= |universe|
      ensures IsOutcome(session, policy.decodeUrls, backend, world, tried, sent, policy.pins, old(tally), tally)
      ensures Ends(session, policy.decodeUrls, Begin(c), Heard(world, |tried|))
      ensures var k := LoopAt(session, policy.decodeUrls, c, world, |tried|);
        sent == k.sent && policy.pins == k.pins && tally == Plus(old(tally), k.tally)
    {
      ghost var n;
      sent, n := TryInTurn(session, backend, world, c, universe);
      StreamEnds(session, policy.decodeUrls, c, Heard(world, n));
      TallyEnds(session, policy.decodeUrls, c, Heard(world, n));
      tried := TrailEnds(session, policy.decodeUrls, c, Heard(world, n));
    }

    /** `stream`, the response once there is a prefill backend. If it gets as far as the loop, `tried`
        lists the backends tried, and that many answers of the world are used up. */
    method Respond(session: string, prefill: Prefill, decodeListed: seq<Backend>, world: nat -> Answer, ghost universe: set<string>)
      returns (sent: seq<Out>, ghost tried: seq<Backend>)
      requires NamesOf(Candidates("decode", decodeListed, policy.decodeUrls)) <= universe
      requires WorldWithin(policy.decodeUrls, world, universe)
      modifies this`tally, policy`pins
      ensures prefill.PrefillFailed? ==>
        && sent == [Sse(Failure("prefill failed: " + prefill.error)), Done] && tried == []
        && policy.pins == old(policy.pins) && tally == old(tally).(error := old(tally.error) + 1)
      ensures prefill.Prefilled? && |decodeListed| == 0 && |policy.decodeUrls| == 0 ==>
        && sent == [Sse(Failure("no decode backends available")), Done] && tried == []
        && policy.pins == old(policy.pins) && tally == old(tally)
      ensures prefill.Prefilled? && (|decodeListed| > 0 || |policy.decodeUrls| > 0) ==>
        var cs := Candidates("decode", decodeListed, policy.decodeUrls);
        && |cs| > 0 && 0 < |tried| <= |universe|
        && IsOutcome(session, policy.decodeUrls, PickDecode(cs, old(policy.pins), session).backend, world, tried, sent,
                     policy.pins, old(tally), tally)
        && Ends(session, policy.decodeUrls, Begin(PickDecode(cs, old(policy.pins), session)), Heard(world, |tried|))
        && var k := LoopAt(session, policy.decodeUrls, PickDecode(cs, old(policy.pins), session), world, |tried|);
        sent == k.sent && policy.pins == k.pins && tally == Plus(old(tally), k.tally)
    {
      tried := [];
      if prefill.PrefillFailed? {
        tally := tally.(error := tally.error + 1);
        return [Sse(Failure("prefill failed: " + prefill.error)), Done], [];
      }
      var selected := policy.SelectDecode(session, decodeListed);
      if selected.None? {
        return [Sse(Failure(NO_DECODE)), Done], [];
      }
      ghost var cs := Candidates("decode", decodeListed, policy.decodeUrls);
      ghost var c := PickDecode(cs, old(policy.pins), session);
      PickedInUniverse(cs, old(policy.pins), session, universe);
      DecodeIsSticky(cs, old(policy.pins), session);
      sent, tried := StreamDecode(session, selected.value.0, world, c, universe);
    }

    /** `_generate_disaggregated`: the reply and its bookkeeping. */
    method Generate(session: string, prefillListed: seq<Backend>, prefill: Prefill, decodeListed: seq<Backend>,
                    world: nat -> Answer, ghost universe: set<string>)
      returns (reply: Reply, ghost tried: seq<Backend>)
      requires NamesOf(Candidates("decode", decodeListed, policy.decodeUrls)) <= universe
      requires WorldWithin(policy.decodeUrls, world, universe)
      modifies this`tally, policy
      // No prefill backend.
      ensures var none := |prefillListed| == 0 && |policy.prefillUrls| == 0;
        && policy.rrPrefill == old(policy.rrPrefill) + (if none then 0 else 1)
        && (none ==>
          && reply == Unavailable("no prefill backends available") && tried == []
          && policy.pins == old(policy.pins) && tally == old(tally).(error := old(tally.error) + 1))
      // The prefill failed.
      ensures (|prefillListed| > 0 || |policy.prefillUrls| > 0) && prefill.PrefillFailed? ==>
        && reply == Reply.Stream([Sse(Failure("prefill failed: " + prefill.error)), Done]) && tried == []
        && policy.pins == old(policy.pins) && tally == old(tally).(error := old(tally.error) + 1)
      // It did not, but there is no decode backend.
      ensures (|prefillListed| > 0 || |policy.prefillUrls| > 0) && prefill.Prefilled? && |decodeListed| == 0 && |policy.decodeUrls| == 0 ==>
        && reply == Reply.Stream([Sse(Failure("no decode backends available")), Done]) && tried == []
        && policy.pins == old(policy.pins) && tally == old(tally)
      // There is one.
      ensures (|prefillListed| > 0 || |policy.prefillUrls| > 0) && prefill.Prefilled? && (|decodeListed| > 0 || |policy.decodeUrls| > 0) ==>
        var cs := Candidates("decode", decodeListed, policy.decodeUrls);
        && |cs| > 0 && 0 < |tried| <= |universe| && reply.Stream?
        && IsOutcome(session, policy.decodeUrls, PickDecode(cs, old(policy.pins), session).backend, world, tried, reply.sent,
                     policy.pins, old(tally), tally)
      // All of it as one function.
      ensures var prefills := Candidates("prefill", prefillListed, policy.prefillUrls);
        var cs := Candidates("decode", decodeListed, policy.decodeUrls);
        var h := Handled(session, prefills, prefill, cs, old(policy.pins), policy.decodeUrls, Heard(world, |tried|));
        && reply == h.reply && policy.pins == h.pins && tally == Plus(old(tally), h.tally)
        && (ReachesLoop(prefills, prefill, cs) ==>
          Ends(session, policy.decodeUrls, Begin(PickDecode(cs, old(policy.pins), session)), Heard(world, |tried|)))
    {
      var prefillBackend := policy.SelectPrefill(prefillListed);
      if prefillBackend.None? {
        tally := tally.(error := tally.error + 1);
        return Unavailable(NO_PREFILL), [];
      }
      var sent;
      sent, tried := Respond(session, prefill, decodeListed, world, universe);
      reply := Reply.Stream(sent);
    }
  }
}
