/** Many requests of one session: as long as its node is listed and does not fail, it stays there. */
module Sessions {
  import opened Routing
  import Frames
  import opened Router

  /** One request of the session: the registry when its decode backend is selected, then what
      each attempt meets. */
  datatype Visit = Visit(listed: seq<Backend>, answers: seq<Answer>)

  /** `Theirs` is whatever requests of other sessions do to the shared store. */
  datatype Happening = Ours(visit: Visit) | Theirs(pins: Pins)

  function Serving(urls: seq<string>, v: Visit): seq<Backend> {
    Candidates("decode", v.listed, urls)
  }

  function VisitLoop(urls: seq<string>, pins: Pins, session: string, v: Visit): Loop
    requires |Serving(urls, v)| > 0
  {
    LoopAfter(session, urls, Begin(PickDecode(Serving(urls, v), pins, session)), v.answers)
  }

  function PinsAfter(urls: seq<string>, pins: Pins, session: string, h: Happening): Pins {
    match h
    case Ours(v) => if |Serving(urls, v)| == 0 then pins else VisitLoop(urls, pins, session, v).pins
    case Theirs(p) => p
  }

  /** What a request of the session leaves is what `Generate` leaves of one whose prefill succeeds. */
  lemma OursIsHandled(urls: seq<string>, pins: Pins, session: string, v: Visit, prefills: seq<Backend>)
    requires |prefills| > 0
    ensures PinsAfter(urls, pins, session, Ours(v)) == Handled(session, prefills, Prefilled, Serving(urls, v), pins, urls, v.answers).pins
  {
  }

  function PinsAfterAll(urls: seq<string>, pins: Pins, session: string, hs: seq<Happening>): Pins {
    if |hs| == 0 then pins
    else PinsAfter(urls, PinsAfterAll(urls, pins, session, hs[..|hs| - 1]), session, hs[|hs| - 1])
  }

  /** Every attempt of the visit that goes to the named backend reaches a finish frame. */
  ghost predicate NeverFails(urls: seq<string>, pins: Pins, session: string, v: Visit, name: string)
    requires |Serving(urls, v)| > 0
  {
    var l := Begin(PickDecode(Serving(urls, v), pins, session));
    forall i :: 0 <= i < |v.answers| ==>
      var k := LoopAfter(session, urls, l, v.answers[..i]);
      k.Trying? && k.backend.name == name ==> Frames.Complete(v.answers[i].frames)
  }

  /** The backend is listed and does not fail, and others leave this session's pin alone. */
  ghost predicate Steady(urls: seq<string>, pins: Pins, session: string, h: Happening, name: string) {
    match h
    case Ours(v) =>
      && |Serving(urls, v)| > 0 && name in NamesOf(Serving(urls, v))
      && |v.answers| > 0 && NeverFails(urls, pins, session, v, name)
    case Theirs(p) => Pinned(p, session) == Pinned(pins, session)
  }

  ghost predicate AllSteady(urls: seq<string>, pins: Pins, session: string, hs: seq<Happening>, name: string) {
    forall i :: 0 <= i < |hs| ==> Steady(urls, PinsAfterAll(urls, pins, session, hs[..i]), session, hs[i], name)
  }

  /** A cache hit on the named backend, served by the first attempt. */
  ghost predicate IsHit(urls: seq<string>, pins: Pins, session: string, v: Visit, name: string) {
    |Serving(urls, v)| > 0 &&
    var c, k := PickDecode(Serving(urls, v), pins, session), VisitLoop(urls, pins, session, v);
    && c.decision.CacheHit? && c.backend.name == name
    && k.Over? && k.served && k.attempted == {name} && Pinned(k.pins, session) == name
  }

  lemma {:induction false} FirstAnswerDecides(session: string, urls: seq<string>, l: Loop, answers: seq<Answer>)
    requires l.Trying? && |answers| > 0 && Frames.Complete(answers[0].frames)
    ensures LoopAfter(session, urls, l, answers) == Step(session, urls, l, answers[0])
  {
    var n := |answers| - 1;
    if n > 0 {
      FirstAnswerDecides(session, urls, l, answers[..n]);
      assert answers[..n][0] == answers[0];
    } else {
      assert answers[..0] == [] && LoopAfter(session, urls, l, []) == l;
    }
  }

  lemma VisitHits(urls: seq<string>, pins: Pins, session: string, v: Visit, name: string)
    requires Pinned(pins, session) == name && name != "" && Steady(urls, pins, session, Ours(v), name)
    ensures IsHit(urls, pins, session, v, name)
  {
    var cs := Serving(urls, v);
    DecodeIsSticky(cs, pins, session);
    var i :| 0 <= i < |cs| && cs[i].name == name;
    assert cs[i] in cs;
    var l := Begin(PickDecode(cs, pins, session));
    assert LoopAfter(session, urls, l, v.answers[..0]) == l;
    FirstAnswerDecides(session, urls, l, v.answers);
  }

  lemma {:induction false} PinStays(urls: seq<string>, pins: Pins, session: string, hs: seq<Happening>, name: string)
    requires Pinned(pins, session) == name && name != "" && AllSteady(urls, pins, session, hs, name)
    ensures Pinned(PinsAfterAll(urls, pins, session, hs), session) == name
  {
    if |hs| == 0 {
    } else {
      var n := |hs| - 1;
      forall i | 0 <= i < n
        ensures Steady(urls, PinsAfterAll(urls, pins, session, hs[..n][..i]), session, hs[..n][i], name)
      {
        assert hs[..n][..i] == hs[..i];
      }
      PinStays(urls, pins, session, hs[..n], name);
      if hs[n].Ours? {
        VisitHits(urls, PinsAfterAll(urls, pins, session, hs[..n]), session, hs[n].visit, name);
      }
    }
  }

  /** While the pinned backend stays listed and does not fail, every request of the session is a
      cache hit served by it, whatever other sessions do in between. */
  lemma EveryVisitHits(urls: seq<string>, pins: Pins, session: string, hs: seq<Happening>, name: string)
    requires Pinned(pins, session) == name && name != "" && AllSteady(urls, pins, session, hs, name)
    ensures Pinned(PinsAfterAll(urls, pins, session, hs), session) == name
    ensures forall i :: 0 <= i < |hs| && hs[i].Ours? ==>
      IsHit(urls, PinsAfterAll(urls, pins, session, hs[..i]), session, hs[i].visit, name)
  {
    PinStays(urls, pins, session, hs, name);
    forall i | 0 <= i < |hs| && hs[i].Ours?
      ensures IsHit(urls, PinsAfterAll(urls, pins, session, hs[..i]), session, hs[i].visit, name)
    {
      forall j | 0 <= j < i
        ensures Steady(urls, PinsAfterAll(urls, pins, session, hs[..i][..j]), session, hs[..i][j], name)
      {
        assert hs[..i][..j] == hs[..j];
      }
      PinStays(urls, pins, session, hs[..i], name);
      VisitHits(urls, PinsAfterAll(urls, pins, session, hs[..i]), session, hs[i].visit, name);
    }
  }

  /** In particular after any request that was served, however many fallbacks it took. */
  lemma ServedThenSticky(urls: seq<string>, pins: Pins, session: string, v: Visit, hs: seq<Happening>)
    requires |Serving(urls, v)| > 0
    requires var k := VisitLoop(urls, pins, session, v);
      k.Over? && k.served && k.backend.name != "" && AllSteady(urls, k.pins, session, hs, k.backend.name)
    ensures var k := VisitLoop(urls, pins, session, v);
      && Pinned(PinsAfterAll(urls, k.pins, session, hs), session) == k.backend.name
      && forall i :: 0 <= i < |hs| && hs[i].Ours? ==>
        IsHit(urls, PinsAfterAll(urls, k.pins, session, hs[..i]), session, hs[i].visit, k.backend.name)
  {
    var cs, k := Serving(urls, v), VisitLoop(urls, pins, session, v);
    DecodeIsSticky(cs, pins, session);
    PinFollowsAttempts(session, urls, PickDecode(cs, pins, session), v.answers);
    EveryVisitHits(urls, k.pins, session, hs, k.backend.name);
  }
}
